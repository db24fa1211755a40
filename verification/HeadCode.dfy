/**
 Clause terms, the instructions a clause head and the arguments of its body are compiled
 to, and the equations they leave between the values registers and cells have once all
 variables are bound. A head instruction compares such values; a body instruction builds a
 cell, whose eventual value is not known yet, and its later instructions are equations on
 that. The claim about compiled code is put as an equivalence between solving the clause's
 equations and those still owed.
 */
module HeadCode {
  import opened Hiding

  /** Terms of a clause. */
  datatype Term =
    | Var(v: nat)
    | Atom(name: string)
    | Int(n: int)
    | Nil
    | List(car: Term, cdr: Term)
    | Str(functor: string, args: seq<Term>)

  /** Ground terms, the values of registers and cells. */
  datatype Ground =
    | GAtom(name: string)
    | GInt(n: int)
    | GNil
    | GList(car: Ground, cdr: Ground)
    | GStr(functor: string, args: seq<Ground>)

  datatype Instr =
    | GetCon(r: int, name: string)
    | GetNumCon(r: int, n: int)
    | GetNil(r: int)
    | GetTVal(r1: int, r2: int)
    | GetList(r: int)
    | GetStr(r: int, functor: string, arity: nat)
    | GetListTVarTVar(r: int, r1: int, r2: int)
    | UniCon(build: bool, name: string)
    | UniNumCon(build: bool, n: int)
    | UniNil(build: bool)
    | UniTVar(build: bool, r: int)
    | UniTVal(build: bool, r: int)
    | UniTVarGetListUniNumCon(build: bool, r: int, hi: int, lo: int)
    | PutTVar(r: int)
    | PutList(r: int)
    | PutStr(r: int, functor: string, arity: nat)

  // ----- the machine -----

  /** Argument registers, and for each term the code builds the value it will have in the end. */
  datatype Input = Input(regs: int -> Ground, hope: nat -> Ground)

  /**
   What the cells are to which the next instructions apply. After a get the flag tells whether they are
   there to be read or have to be written, and that depends on the call; after a get from a register that
   certainly holds a fresh variable they are written. A put writes them without setting the flag.
   */
  datatype Mode = Matching | Writing | Making

  /**
   Registers, those that certainly hold a fresh variable, the cells from the structure pointer or the
   heap top on, what they are, and how many terms have been built.
   */
  datatype Machine = Machine(regs: int -> Ground, unbound: set<int>, s: seq<Ground>, mode: Mode, hope: nat -> Ground, built: nat)

  /** An instruction that reads where nothing is, or trusts a flag nobody has set, may do anything. */
  datatype Outcome = Ok(m: Machine) | Fail | Undefined

  function Start(input: Input): Machine {
    Machine(input.regs, {}, [], Matching, input.hope, 0)
  }

  ghost function Put(m: Machine, r: int, t: Ground): Machine {
    m.(regs := x => if x == r then t else m.regs(x), unbound := m.unbound - {r})
  }

  /** A variable may have been bound, and nobody knows which. */
  ghost function Bound(m: Machine): Machine {
    m.(unbound := {})
  }

  /** The term in r has been found to have these cells, or given them. */
  ghost function Entered(m: Machine, r: int, cells: seq<Ground>): Machine {
    if r in m.unbound then m.(s := cells, mode := Writing, unbound := m.unbound - {r})
    else Bound(m.(s := cells, mode := Matching))
  }

  /** The next term to be built is put into register r. */
  ghost function Build(m: Machine, r: int): Machine {
    Put(m, r, m.hope(m.built)).(built := m.built + 1)
  }

  ghost function Check(m: Machine, b: bool): Outcome {
    if b then Ok(m) else Fail
  }

  /** A cell instruction advances over the next cell. */
  ghost function Next(m: Machine): Machine
    requires m.s != []
  {
    m.(s := m.s[1..])
  }

  /** Comparing what is there may bind a variable. */
  ghost function Compared(m: Machine): Machine {
    if m.mode.Matching? then Bound(m) else m
  }

  /** A uni instruction asks the flag, a bld instruction writes whatever the flag says. */
  ghost predicate Allowed(build: bool, m: Machine) {
    if build then !m.mode.Matching? else !m.mode.Making?
  }

  ghost function Step(i: Instr, m: Machine): Outcome {
    match i
    case GetCon(r, name) => Check(Bound(m), m.regs(r) == GAtom(name))
    case GetNumCon(r, n) => Check(Bound(m), m.regs(r) == GInt(n))
    case GetNil(r) => Check(Bound(m), m.regs(r) == GNil)
    case GetTVal(r1, r2) => Check(Bound(m), m.regs(r1) == m.regs(r2))
    case GetList(r) =>
      (match m.regs(r)
       case GList(a, b) => Ok(Entered(m, r, [a, b]))
       case _ => Fail)
    case GetStr(r, f, n) =>
      (match m.regs(r)
       case GStr(g, args) => if g == f && |args| == n then Ok(Entered(m, r, args)) else Fail
       case _ => Fail)
    case GetListTVarTVar(r, r1, r2) =>
      (match m.regs(r)
       case GList(a, b) => Ok(Bound(Put(Put(m, r1, a), r2, b).(s := [])))
       case _ => Fail)
    case PutTVar(r) => Ok(Build(m, r))
    case PutList(r) =>
      (match m.hope(m.built)
       case GList(a, b) => Ok(Build(m, r).(s := [a, b], mode := Making))
       case _ => Fail)
    case PutStr(r, f, n) =>
      (match m.hope(m.built)
       case GStr(g, args) => if g == f && |args| == n then Ok(Build(m, r).(s := args, mode := Making)) else Fail
       case _ => Fail)
    case _ => if m.s == [] || !Allowed(i.build, m) then Undefined else StepCell(i, m)
  }

  ghost function StepCell(i: Instr, m: Machine): Outcome
    requires m.s != []
  {
    match i
    case UniCon(_, name) => Check(Next(Compared(m)), m.s[0] == GAtom(name))
    case UniNumCon(_, n) => Check(Next(Compared(m)), m.s[0] == GInt(n))
    case UniTVar(build, r) => Ok(ReadCell(m, build, r))
    case UniTVal(_, r) => Check(Next(Compared(m)), m.s[0] == m.regs(r))
    case UniTVarGetListUniNumCon(build, r, hi, lo) =>
      (match m.s[0]
       case GList(a, b) => Check((if build then m else Compared(Put(m, r, m.s[0]))).(s := [b]), a == GInt(hi * 256 + lo))
       case _ => Fail)
    case UniNil(_) => Check(Next(Compared(m)), m.s[0] == GNil)
    case _ => Undefined
  }

  /** The next cell goes to a register; a bld instruction makes it a fresh variable. */
  ghost function ReadCell(m: Machine, build: bool, r: int): Machine
    requires m.s != []
  {
    var m' := Next(Put(m, r, m.s[0]));
    if build then m'.(unbound := m'.unbound + {r}) else m'
  }

  ghost function Then(x: Outcome, i: Instr): Outcome {
    if x.Ok? then Step(i, x.m) else x
  }

  ghost function Run(code: seq<Instr>, input: Input): Outcome {
    if code == [] then Ok(Start(input)) else Then(Run(code[..|code| - 1], input), code[|code| - 1])
  }

  lemma RunSnoc(code: seq<Instr>, i: Instr, input: Input)
    ensures Run(code + [i], input) == Then(Run(code, input), i)
  {
    assert (code + [i])[..|code|] == code;
  }

  // ----- instances -----

  ghost function Apply(s: nat -> Ground, t: Term): Ground {
    match t
    case Var(v) => s(v)
    case Atom(name) => GAtom(name)
    case Int(n) => GInt(n)
    case Nil => GNil
    case List(a, b) => GList(Apply(s, a), Apply(s, b))
    case Str(f, args) => GStr(f, seq(|args|, i requires 0 <= i < |args| => Apply(s, args[i])))
  }

  /** The arguments of the head, and the terms built for the body so far. */
  datatype Goal = Goal(head: seq<Term>, built: seq<Term>)

  /** Under s the head is what the argument registers hold, and the terms built get their values. */
  ghost predicate Matches(s: nat -> Ground, goal: Goal, input: Input) {
    && (forall i :: 0 <= i < |goal.head| ==> Apply(s, goal.head[i]) == input.regs(i + 1))
    && (forall k :: 0 <= k < |goal.built| ==> Apply(s, goal.built[k]) == input.hope(k))
  }

  // ----- what is still owed -----

  /** Term t must still be matched against the contents of register r. */
  datatype Work = Work(r: int, t: Term)

  /** Registers of the variables met so far, pending register matches, pending cells; and registers that keep a built term. */
  datatype Owed = Owed(frozen: map<nat, int>, work: seq<Work>, subs: seq<Term>, kept: map<nat, int>)

  ghost predicate Settles(s: nat -> Ground, o: Owed, m: Machine) {
    && (forall v :: v in o.frozen ==> s(v) == m.regs(o.frozen[v]))
    && (forall w :: w in o.work ==> Apply(s, w.t) == m.regs(w.r))
    && (forall j :: 0 <= j < |o.subs| && j < |m.s| ==> Apply(s, o.subs[j]) == m.s[j])
  }

  /** The machine is where the debt supposes it: once something is being built, all that is pending is yet to be made. */
  ghost predicate Aligned(o: Owed, m: Machine) {
    && (o.subs != [] ==> |m.s| == |o.subs| && Allowed(m.built > 0, m))
    && (m.built > 0 ==> forall w :: w in o.work ==> w.r in m.unbound)
    && (forall k :: k in o.kept ==> m.regs(o.kept[k]) == m.hope(k))
  }

  /** The code has done its part: what remains to be matched is exactly what is owed. */
  ghost predicate Done(goal: Goal, code: seq<Instr>, o: Owed, input: Input) {
    match Run(code, input)
    case Ok(m) =>
      Aligned(o, m) && m.hope == input.hope && m.built == |goal.built|
      && forall s {:trigger Matches(s, goal, input)} :: Matches(s, goal, input) <==> Settles(s, o, m)
    case Fail => forall s {:trigger Matches(s, goal, input)} :: !Matches(s, goal, input)
    case Undefined => false
  }

  ghost predicate Right(goal: Goal, code: seq<Instr>, o: Owed) {
    forall input {:trigger Run(code, input)} :: Done(goal, code, o, input)
  }

  /** Instruction i turns debt o into debt o', before anything is built or after. */
  ghost predicate Pays(build: bool, i: Instr, o: Owed, o': Owed) {
    forall m :: Aligned(o, m) && (m.built > 0 <==> build) ==> PaysAt(i, o, o', m)
  }

  ghost predicate PaysAt(i: Instr, o: Owed, o': Owed, m: Machine) {
    match Step(i, m)
    case Ok(m') => Aligned(o', m') && m'.hope == m.hope && m'.built == m.built && forall s :: Settles(s, o, m) <==> Settles(s, o', m')
    case Fail => forall s :: !Settles(s, o, m)
    case Undefined => false
  }

  lemma PayOne(goal: Goal, code: seq<Instr>, i: Instr, o: Owed, o': Owed)
    requires Right(goal, code, o) && Pays(goal.built != [], i, o, o')
    ensures Right(goal, code + [i], o')
  {
    forall input
      ensures Done(goal, code + [i], o', input)
    {
      RunSnoc(code, i, input);
      assert Done(goal, code, o, input);
      if Run(code, input).Ok? {
        assert PaysAt(i, o, o', Run(code, input).m);
      }
    }
  }

  /** A change of debt that no machine can notice needs no instruction. */
  lemma PayNone(goal: Goal, code: seq<Instr>, o: Owed, o': Owed)
    requires Right(goal, code, o)
    requires forall m :: Aligned(o, m) ==> Aligned(o', m) && forall s :: Settles(s, o, m) <==> Settles(s, o', m)
    ensures Right(goal, code, o')
  {
    forall input
      ensures Done(goal, code, o', input)
    {
      assert Done(goal, code, o, input);
    }
  }

  // ----- what each instruction pays -----

  /** o' is o without the work item x. */
  ghost predicate Without(o: Owed, o': Owed, x: Work) {
    forall w :: w in o.work <==> w == x || w in o'.work
  }

  /** Register r holds nothing that is still needed. */
  ghost predicate Unneeded(o: Owed, r: int) {
    && (forall v :: v in o.frozen ==> o.frozen[v] != r)
    && (forall w :: w in o.work ==> w.r != r)
    && (forall k :: k in o.kept ==> o.kept[k] != r)
  }

  ghost predicate Constant(t: Term) {
    t.Atom? || t.Int? || t.Nil?
  }

  function GetConstant(t: Term, r: int): Instr
    requires t.Atom? || t.Int? || t.Nil?
  {
    match t
    case Atom(name) => GetCon(r, name)
    case Int(n) => GetNumCon(r, n)
    case Nil => GetNil(r)
  }

  function UniConstant(build: bool, t: Term): Instr
    requires t.Atom? || t.Int? || t.Nil?
  {
    match t
    case Atom(name) => UniCon(build, name)
    case Int(n) => UniNumCon(build, n)
    case Nil => UniNil(build)
  }

  lemma PayGetConstant(o: Owed, o': Owed, x: Work)
    requires Constant(x.t) && Without(o, o', x) && o'.frozen == o.frozen && o'.kept == o.kept && o'.subs == o.subs == []
    ensures Pays(false, GetConstant(x.t, x.r), o, o')
  {
  }

  lemma PayGetTVal(o: Owed, o': Owed, x: Work)
    requires x.t.Var? && x.t.v in o.frozen && Without(o, o', x) && o'.frozen == o.frozen && o'.kept == o.kept && o'.subs == o.subs == []
    ensures Pays(false, GetTVal(o.frozen[x.t.v], x.r), o, o')
  {
    forall m | Aligned(o, m) && m.built == 0
      ensures PaysAt(GetTVal(o.frozen[x.t.v], x.r), o, o', m)
    {
      forall s
        ensures Settles(s, o, m) <==> Settles(s, o', m) && m.regs(o.frozen[x.t.v]) == m.regs(x.r)
      {
      }
    }
  }

  /** The first occurrence of a variable as a whole argument: the argument register becomes its own. */
  lemma PayFreezeArgument(goal: Goal, code: seq<Instr>, o: Owed, o': Owed, x: Work)
    requires Right(goal, code, o)
    requires x.t.Var? && x.t.v !in o.frozen && Without(o, o', x) && o'.kept == o.kept && o'.frozen == o.frozen[x.t.v := x.r] && o'.subs == o.subs == []
    ensures Right(goal, code, o')
  {
    forall m | Aligned(o, m)
      ensures Aligned(o', m) && forall s :: Settles(s, o, m) <==> Settles(s, o', m)
    {
      forall s
        ensures Settles(s, o, m) <==> Settles(s, o', m)
      {
        assert x in o.work && x.t.v in o'.frozen;
      }
    }
    PayNone(goal, code, o, o');
  }

  lemma PayGetList(build: bool, o: Owed, o': Owed, x: Work)
    requires forall w :: w in o'.work ==> w.r != x.r
    requires x.t.List? && Without(o, o', x) && o'.frozen == o.frozen && o'.kept == o.kept && o.subs == [] && o'.subs == [x.t.car, x.t.cdr]
    ensures Pays(build, GetList(x.r), o, o')
  {
    forall m | Aligned(o, m) && (m.built > 0 <==> build)
      ensures PaysAt(GetList(x.r), o, o', m)
    {
      match m.regs(x.r)
      case GList(a, b) =>
        var m' := Entered(m, x.r, [a, b]);
        forall s
          ensures Settles(s, o, m) <==> Settles(s, o', m')
        {
          if Settles(s, o', m') { assert Apply(s, o'.subs[0]) == m'.s[0] && Apply(s, o'.subs[1]) == m'.s[1]; }
        }
      case _ =>
        forall s
          ensures !Settles(s, o, m)
        {
          assert x in o.work;
        }
    }
  }

  lemma PayGetStr(build: bool, o: Owed, o': Owed, x: Work)
    requires forall w :: w in o'.work ==> w.r != x.r
    requires x.t.Str? && Without(o, o', x) && o'.frozen == o.frozen && o'.kept == o.kept && o.subs == [] && o'.subs == x.t.args
    ensures Pays(build, GetStr(x.r, x.t.functor, |x.t.args|), o, o')
  {
    var i := GetStr(x.r, x.t.functor, |x.t.args|);
    forall m | Aligned(o, m) && (m.built > 0 <==> build)
      ensures PaysAt(i, o, o', m)
    {
      if Step(i, m).Ok? {
        var m' := Step(i, m).m;
        forall s
          ensures Settles(s, o, m) <==> Settles(s, o', m')
        {
          ApplyArgs(s, x.t, m.regs(x.r));
        }
      } else {
        forall s
          ensures !Settles(s, o, m)
        {
          assert x in o.work;
        }
      }
    }
  }

  lemma ApplyArgs(s: nat -> Ground, t: Term, v: Ground)
    requires t.Str? && v.GStr? && v.functor == t.functor && |v.args| == |t.args|
    ensures Apply(s, t) == v <==> forall j :: 0 <= j < |t.args| ==> Apply(s, t.args[j]) == v.args[j]
  {
    var a := Apply(s, t);
    assert |a.args| == |t.args|;
    assert forall j :: 0 <= j < |t.args| ==> a.args[j] == Apply(s, t.args[j]);
    if forall j :: 0 <= j < |t.args| ==> Apply(s, t.args[j]) == v.args[j] {
      assert a.args == v.args;
    }
  }

  /** Giving a variable a register amounts to one more equation. */
  lemma SettlesFrozen(s: nat -> Ground, o: Owed, o': Owed, m: Machine, v: nat, r: int)
    requires v !in o.frozen && o' == o.(frozen := o.frozen[v := r])
    ensures Settles(s, o', m) <==> s(v) == m.regs(r) && Settles(s, o, m)
  {
    assert v in o'.frozen && o'.frozen[v] == r;
    assert forall u :: u in o.frozen ==> u in o'.frozen && o'.frozen[u] == o.frozen[u];
  }

  lemma SettlesWithout(s: nat -> Ground, o: Owed, rest: Owed, x: Work, m: Machine, m': Machine)
    requires Without(o, rest, x) && rest.frozen == o.frozen && o.subs == rest.subs == []
    requires forall v :: v in o.frozen ==> m'.regs(o.frozen[v]) == m.regs(o.frozen[v])
    requires forall w :: w in o.work ==> m'.regs(w.r) == m.regs(w.r)
    ensures Settles(s, o, m) <==> Apply(s, x.t) == m.regs(x.r) && Settles(s, rest, m')
  {
    assert x in o.work;
  }

  /** A cell of two new variables is bound in one instruction. */
  lemma PayGetListTVarTVar(o: Owed, o': Owed, x: Work, r1: int, r2: int)
    requires x.t.List? && x.t.car.Var? && x.t.cdr.Var? && x.t.car != x.t.cdr
    requires x.t.car.v !in o.frozen && x.t.cdr.v !in o.frozen
    requires Without(o, o', x) && o'.kept == o.kept && o'.frozen == o.frozen[x.t.car.v := r1][x.t.cdr.v := r2] && o.subs == o'.subs == []
    requires Unneeded(o, r1) && Unneeded(o, r2) && r1 != r2
    ensures Pays(false, GetListTVarTVar(x.r, r1, r2), o, o')
  {
    var v1, v2 := x.t.car.v, x.t.cdr.v;
    var i := GetListTVarTVar(x.r, r1, r2);
    forall m | Aligned(o, m) && m.built == 0
      ensures PaysAt(i, o, o', m)
    {
      match m.regs(x.r)
      case GList(a, b) =>
        var m' := Bound(Put(Put(m, r1, a), r2, b).(s := []));
        var rest := Owed(o.frozen, o'.work, [], o.kept);
        var mid := rest.(frozen := o.frozen[v1 := r1]);
        assert o' == mid.(frozen := mid.frozen[v2 := r2]);
        forall s
          ensures Settles(s, o, m) <==> Settles(s, o', m')
        {
          SettlesFrozen(s, rest, mid, m', v1, r1);
          SettlesFrozen(s, mid, o', m', v2, r2);
          SettlesWithout(s, o, rest, x, m, m');
        }
      case _ =>
        forall s
          ensures !Settles(s, o, m)
        {
          assert x in o.work;
        }
    }
  }

  lemma PayUniConstant(build: bool, o: Owed, o': Owed)
    requires o.subs != [] && Constant(o.subs[0]) && o' == o.(subs := o.subs[1..])
    ensures Pays(build, UniConstant(build, o.subs[0]), o, o')
  {
    var i := UniConstant(build, o.subs[0]);
    forall m | Aligned(o, m) && (m.built > 0 <==> build)
      ensures PaysAt(i, o, o', m)
    {
      SettlesFirst(o, o', m, Next(Compared(m)));
    }
  }

  /** Passing over the first cell leaves the rest of the debt as it was. */
  lemma SettlesFirst(o: Owed, o': Owed, m: Machine, m': Machine)
    requires o.subs != [] && |m.s| == |o.subs| && o'.subs == o.subs[1..] && m'.s == m.s[1..]
    requires o'.frozen == o.frozen && o'.work == o.work
    requires forall v :: v in o.frozen ==> m'.regs(o.frozen[v]) == m.regs(o.frozen[v])
    requires forall w :: w in o.work ==> m'.regs(w.r) == m.regs(w.r)
    ensures forall s :: Settles(s, o, m) <==> Apply(s, o.subs[0]) == m.s[0] && Settles(s, o', m')
  {
    forall s
      ensures Settles(s, o, m) <==> Apply(s, o.subs[0]) == m.s[0] && Settles(s, o', m')
    {
      if Settles(s, o', m') && Apply(s, o.subs[0]) == m.s[0] {
        forall j | 0 <= j < |o.subs| && j < |m.s|
          ensures Apply(s, o.subs[j]) == m.s[j]
        {
          if j > 0 { assert Apply(s, o'.subs[j - 1]) == m'.s[j - 1]; }
        }
      }
    }
  }

  lemma PayUniTVal(build: bool, o: Owed, o': Owed)
    requires o.subs != [] && o.subs[0].Var? && o.subs[0].v in o.frozen && o' == o.(subs := o.subs[1..])
    ensures Pays(build, UniTVal(build, o.frozen[o.subs[0].v]), o, o')
  {
    forall m | Aligned(o, m) && (m.built > 0 <==> build)
      ensures PaysAt(UniTVal(build, o.frozen[o.subs[0].v]), o, o', m)
    {
      SettlesFirst(o, o', m, Next(Compared(m)));
    }
  }

  /** The first occurrence of a variable in a structure is read into a new register. */
  lemma PayUniTVarNew(build: bool, o: Owed, o': Owed, r: int)
    requires o.subs != [] && o.subs[0].Var? && o.subs[0].v !in o.frozen && Unneeded(o, r)
    requires o' == o.(subs := o.subs[1..], frozen := o.frozen[o.subs[0].v := r])
    ensures Pays(build, UniTVar(build, r), o, o')
  {
    var v0 := o.subs[0].v;
    var mid := o.(subs := o.subs[1..]);
    forall m | Aligned(o, m) && (m.built > 0 <==> build)
      ensures PaysAt(UniTVar(build, r), o, o', m)
    {
      var m' := ReadCell(m, build, r);
      SettlesFirst(o, mid, m, m');
      forall s
        ensures Settles(s, o, m) <==> Settles(s, o', m')
      {
        SettlesFrozen(s, mid, o', m', v0, r);
      }
    }
  }

  /** A compound argument is read into a new register, to be matched later. */
  lemma PayUniTVarLater(build: bool, o: Owed, o': Owed, r: int)
    requires o.subs != [] && Unneeded(o, r)
    requires o'.subs == o.subs[1..] && o'.frozen == o.frozen && o'.kept == o.kept && Without(o', o, Work(r, o.subs[0]))
    ensures Pays(build, UniTVar(build, r), o, o')
  {
    var mid := o.(subs := o.subs[1..]);
    forall m | Aligned(o, m) && (m.built > 0 <==> build)
      ensures PaysAt(UniTVar(build, r), o, o', m)
    {
      var m' := ReadCell(m, build, r);
      SettlesFirst(o, mid, m, m');
      forall s
        ensures Settles(s, o', m') <==> Apply(s, o.subs[0]) == m.s[0] && Settles(s, mid, m')
      {
      }
    }
  }

  /** A last argument that is a list starting with a small number: both in one instruction. */
  lemma PayUniTVarGetListUniNumCon(build: bool, o: Owed, o': Owed, r: int)
    requires |o.subs| == 1 && o.subs[0].List? && o.subs[0].car.Int? && 0 <= o.subs[0].car.n <= 0xffff
    requires Unneeded(o, r) && o' == o.(subs := [o.subs[0].cdr])
    ensures Pays(build, UniTVarGetListUniNumCon(build, r, o.subs[0].car.n / 256, o.subs[0].car.n % 256), o, o')
  {
    var n := o.subs[0].car.n;
    var i := UniTVarGetListUniNumCon(build, r, n / 256, n % 256);
    assert (n / 256) * 256 + n % 256 == n;
    forall m | Aligned(o, m) && (m.built > 0 <==> build)
      ensures PaysAt(i, o, o', m)
    {
      var t := m.s[0];
      var m' := (if build then m else Compared(Put(m, r, t))).(s := if t.GList? then [t.cdr] else []);
      assert Step(i, m) == if t.GList? && t.car == GInt(n) then Ok(m') else Fail;
      forall s
        ensures Settles(s, o, m) <==> t.GList? && t.car == GInt(n) && Settles(s, o', m')
      {
        var list, cdr := o.subs[0], o'.subs[0];
        assert Apply(s, list) == GList(GInt(n), Apply(s, cdr));
        if Settles(s, o, m) {
          assert Apply(s, list) == m.s[0];
        }
        if t.GList? && t.car == GInt(n) && Settles(s, o', m') {
          assert Apply(s, cdr) == m'.s[0];
          assert Settles(s, o, m);
        }
      }
    }
  }

  // ----- building -----

  function PutCode(t: Term, r: int): Instr
    requires t.Var? || t.List? || t.Str?
  {
    match t
    case Var(_) => PutTVar(r)
    case List(_, _) => PutList(r)
    case Str(f, args) => PutStr(r, f, |args|)
  }

  /** The cells of a compound term. */
  function Parts(t: Term): seq<Term> {
    match t
    case List(a, b) => [a, b]
    case Str(_, args) => args
    case _ => []
  }

  /** The debt once the building of t in register r has begun. */
  ghost function Begun(o: Owed, t: Term, r: int, k: nat): Owed {
    if t.Var? then o.(frozen := o.frozen[t.v := r], kept := o.kept[k := r])
    else o.(subs := Parts(t), kept := o.kept[k := r])
  }

  /** A term that is an argument of the body is begun in a new register: one more equation, on the value it will have. */
  lemma PayPut(goal: Goal, code: seq<Instr>, o: Owed, t: Term, r: int)
    requires Right(goal, code, o) && o.work == [] && o.subs == [] && Unneeded(o, r) && |goal.built| !in o.kept
    requires (t.Var? && t.v !in o.frozen) || t.List? || t.Str?
    ensures Right(goal.(built := goal.built + [t]), code + [PutCode(t, r)], Begun(o, t, r, |goal.built|))
  {
    var goal', i, o' := goal.(built := goal.built + [t]), PutCode(t, r), Begun(o, t, r, |goal.built|);
    forall input
      ensures Done(goal', code + [i], o', input)
    {
      RunSnoc(code, i, input);
      assert Done(goal, code, o, input);
      forall s
        ensures Matches(s, goal', input) <==> Matches(s, goal, input) && Apply(s, t) == input.hope(|goal.built|)
      {
        MatchesOneMore(s, goal, t, input);
      }
      if Run(code, input).Ok? { PayPutAt(o, t, r, |goal.built|, Run(code, input).m); }
    }
  }

  lemma MatchesOneMore(s: nat -> Ground, goal: Goal, t: Term, input: Input)
    ensures Matches(s, goal.(built := goal.built + [t]), input) <==> Matches(s, goal, input) && Apply(s, t) == input.hope(|goal.built|)
  {
    var n, built := |goal.built|, goal.built + [t];
    if Matches(s, goal.(built := built), input) {
      assert built[n] == t && forall k :: 0 <= k < n ==> built[k] == goal.built[k];
    }
  }

  lemma PayPutAt(o: Owed, t: Term, r: int, k: nat, m: Machine)
    requires Aligned(o, m) && o.work == [] && o.subs == [] && Unneeded(o, r) && k == m.built && k !in o.kept
    requires (t.Var? && t.v !in o.frozen) || t.List? || t.Str?
    ensures match Step(PutCode(t, r), m)
      case Ok(m') =>
        && Aligned(Begun(o, t, r, k), m') && m'.hope == m.hope && m'.built == m.built + 1
        && forall s :: Settles(s, Begun(o, t, r, k), m') <==> Settles(s, o, m) && Apply(s, t) == m.hope(k)
      case Fail => forall s :: Apply(s, t) != m.hope(k)
      case Undefined => false
  {
    var o', x := Begun(o, t, r, k), m.hope(k);
    if Step(PutCode(t, r), m).Ok? {
      var m' := Step(PutCode(t, r), m).m;
      forall s
        ensures Settles(s, o', m') <==> Settles(s, o, m) && Apply(s, t) == x
      {
        if t.Var? {
          SettlesFrozen(s, o, o.(frozen := o.frozen[t.v := r]), m', t.v, r);
        } else if t.List? {
          if Settles(s, o', m') { assert Apply(s, o'.subs[0]) == m'.s[0] && Apply(s, o'.subs[1]) == m'.s[1]; }
        } else {
          ApplyArgs(s, t, x);
        }
      }
    }
  }
}
