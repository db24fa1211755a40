/**
 A clause with a one-literal body: the head is compiled, then each argument of the body is
 queued as a load of its argument register, compound arguments and new variables being
 built first in registers of their own, and in the end the loads are sequenced. The clause
 is compiled right exactly if no integer is changed by a cut and all loads are in time.
 */
module ClauseCompiler {
  import opened CInts
  import opened Hiding
  import opened RegAlloc
  import opened InstQueues
  import opened HeadCode
  import opened HeadCompiler
  import Moves = ParallelMoves

  // ----- what is queued -----

  /** The load queued for argument k of the body, whose built term, if any, has number `slot`. */
  ghost predicate LoadRight(item: Moves.Item, t: Term, k: nat, sym: string -> int, frozen: map<nat, int>, kept: map<nat, int>, built: seq<Term>, slot: nat) {
    && item.arg2 == k + 1
    && match t
       case Var(v) => v in frozen && item.op.MovReg? && item.arg1 == frozen[v]
       case Atom(name) => item.op.PutCon? && item.arg1 == sym(name)
       case Int(n) => item.op.PutNumCon? && item.arg1 == n
       case Nil => item.op.PutNil?
       case _ => item.op.MovReg? && slot < |built| && built[slot] == Made(t, false) && slot in kept && kept[slot] == item.arg1
  }

  ghost predicate LoadsRight(items: seq<Moves.Item>, body: seq<Term>, sym: string -> int, frozen: map<nat, int>, kept: map<nat, int>, built: seq<Term>, slots: seq<nat>) {
    |slots| == |items| <= |body| && forall k {:trigger items[k]} :: 0 <= k < |items| ==> LoadRight(items[k], body[k], k, sym, frozen, kept, built, slots[k])
  }

  /** Later arguments change nothing for those queued before. */
  ghost predicate Later(a: Stage, kept: map<nat, int>, built: seq<Term>, b: Stage, kept': map<nat, int>, built': seq<Term>) {
    (exists vars :: Grown(a, vars, b)) && built <= built' && forall k :: k in kept ==> k in kept' && kept'[k] == kept[k]
  }

  lemma LoadsOneMore(items: seq<Moves.Item>, body: seq<Term>, sym: string -> int, a: Stage, kept: map<nat, int>, built: seq<Term>, slots: seq<nat>,
                     b: Stage, kept': map<nat, int>, built': seq<Term>, item: Moves.Item, slot: nat)
    requires LoadsRight(items, body, sym, a.frozen, kept, built, slots) && |items| < |body|
    requires Later(a, kept, built, b, kept', built') && LoadRight(item, body[|items|], |items|, sym, b.frozen, kept', built', slot)
    ensures LoadsRight(items + [item], body, sym, b.frozen, kept', built', slots + [slot])
  {
    assert Open(0);
    var vars :| Grown(a, vars, b);
    var items', slots' := items + [item], slots + [slot];
    forall k | 0 <= k < |items'|
      ensures LoadRight(items'[k], body[k], k, sym, b.frozen, kept', built', slots'[k])
    {
      if k < |items| { assert LoadRight(items[k], body[k], k, sym, a.frozen, kept, built, slots[k]); }
    }
  }

  lemma LaterHomes(head: seq<Term>, a: Stage, kept: map<nat, int>, built: seq<Term>, b: Stage, kept': map<nat, int>, built': seq<Term>)
    requires Later(a, kept, built, b, kept', built') && HomesRight(head, a.frozen, a.inUse)
    ensures HomesRight(head, b.frozen, b.inUse)
  {
    var vars :| Grown(a, vars, b);
    HomesStay(head, a, vars, b);
  }

  /** The loads of a whole body are what the sequencer asks for. */
  lemma LoadsWellQueued(items: seq<Moves.Item>, body: seq<Term>, sym: string -> int, goal: Goal, code: seq<Instr>, o: Owed, slots: seq<nat>, reg: RegStat)
    requires reg.Valid() && Sound(goal, code, o, reg.inUse) && LoadsRight(items, body, sym, o.frozen, o.kept, goal.built, slots)
    requires |items| <= reg.size
    ensures Moves.WellQueued(items, reg.inUse)
  {
    assert Open(0);
    forall k | 0 <= k < |items|
      ensures items[k].arg2 == k + 1 && Moves.ArgRegister(reg.inUse, items[k].arg2) && !items[k].op.PutTVar?
      ensures items[k].op.MovReg? ==> items[k].arg1 in reg.inUse && reg.inUse[items[k].arg1] in {RVAR, NVAR}
    {
      assert LoadRight(items[k], body[k], k, sym, o.frozen, o.kept, goal.built, slots[k]);
      reg.ArgumentsStay(k + 1);
    }
  }

  // ----- when the loads are in time -----

  /** The loads of a clause as far as they can overtake each other: moves from argument registers, read off the head. */
  function Loads(head: seq<Term>, body: seq<Term>): (items: seq<Moves.Item>)
    ensures |items| == |body|
    ensures forall k :: 0 <= k < |body| ==>
      items[k] == if body[k].Var? && Home(head, body[k].v) > 0 then Moves.Item(Moves.MovReg, Home(head, body[k].v), k + 1) else Moves.Item(Moves.PutNil, 0, k + 1)
  {
    seq(|body|, k requires 0 <= k < |body| =>
      if body[k].Var? && Home(head, body[k].v) > 0 then Moves.Item(Moves.MovReg, Home(head, body[k].v), k + 1) else Moves.Item(Moves.PutNil, 0, k + 1))
  }

  /** The registers the loads of a clause are right with. */
  ghost predicate Loaded(items: seq<Moves.Item>, head: seq<Term>, body: seq<Term>, sym: string -> int, o: Owed, built: seq<Term>, slots: seq<nat>, inUse: map<int, int>) {
    && LoadsRight(items, body, sym, o.frozen, o.kept, built, slots) && |items| == |body|
    && HomesRight(head, o.frozen, inUse) && KeptApart(o, inUse) && forall r :: 1 <= r <= |body| ==> r in inUse && inUse[r] == NVAR
  }

  ghost predicate KeptApart(o: Owed, inUse: map<int, int>) {
    forall k :: k in o.kept ==> o.kept[k] in inUse && inUse[o.kept[k]] == RVAR
  }

  /** A load that reads an argument register reads the one its variable is at home in. */
  lemma ReadsHome(items: seq<Moves.Item>, head: seq<Term>, body: seq<Term>, sym: string -> int, o: Owed, built: seq<Term>, slots: seq<nat>, inUse: map<int, int>, j: nat, r: nat)
    requires Loaded(items, head, body, sym, o, built, slots, inUse) && j < |body| && 1 <= r <= |body|
    ensures Moves.Reads(items[j], r) <==> body[j].Var? && Home(head, body[j].v) == r
    ensures Moves.Reads(items[j], r) ==> body[j].v in o.frozen && o.frozen[body[j].v] == r
  {
    assert Open(0);
    assert LoadRight(items[j], body[j], j, sym, o.frozen, o.kept, built, slots[j]);
  }

  lemma InTimeOfClause(items: seq<Moves.Item>, head: seq<Term>, body: seq<Term>, sym: string -> int, o: Owed, built: seq<Term>, slots: seq<nat>, inUse: map<int, int>)
    requires Loaded(items, head, body, sym, o, built, slots, inUse)
    ensures Moves.InTime(items) <==> Moves.InTime(Loads(head, body))
  {
    var loads := Loads(head, body);
    forall i: nat, j: nat
      ensures Moves.Overtakes(items, i, j) <==> Moves.Overtakes(loads, i, j)
    {
      if i < j < |items| {
        assert LoadRight(items[i], body[i], i, sym, o.frozen, o.kept, built, slots[i]);
        ReadsHome(items, head, body, sym, o, built, slots, inUse, j, i + 1);
        ReadsHome(items, head, body, sym, o, built, slots, inUse, i, i + 1);
      }
    }
    Moves.SameInTime(items, loads);
  }

  // ----- one argument -----

  /** What queueing an argument may cost in registers, when these variables have been met. */
  ghost function Cost(known: set<nat>, t: Term): nat {
    match t
    case Var(v) => if v in known then 0 else 1
    case List(_, _) => Size(t)
    case Str(_, _) => Size(t)
    case _ => 0
  }

  ghost function Costs(known: set<nat>, ts: seq<Term>): nat {
    if ts == [] then 0 else Cost(known, ts[0]) + Costs(known, ts[1..])
  }

  /** A variable: where it is already, or, if it is new, a register that points to a fresh cell. */
  method GenVariable(c: Compiler, v: nat, q: InstQueue<Moves.Item>, argno: nat, ghost goal: Goal)
    returns (overflow: bool, item: Moves.Item, ghost built: seq<Term>)
    requires c.reg.Valid() && q.Valid() && Sound(goal, c.code, c.Debt([], []), c.reg.inUse)
    requires forall k :: k in c.kept ==> k < |goal.built|
    modifies c`code, c`frozen, c`kept, c.reg, c.reg.RegArray, q`top, q`contents, q.items
    ensures overflow ==> (v !in old(c.frozen) && |old(c.reg.inUse)| >= MAX_REGS - 1) || |old(q.contents)| == INST_QUEUE_SIZE - 1
    ensures !overflow ==> c.reg.Valid() && Sound(Goal(goal.head, built), c.code, c.Debt([], []), c.reg.inUse)
    ensures !overflow ==> q.Valid() && q.contents == old(q.contents) + [item]
    ensures !overflow ==> Later(old(c.Now([])), old(c.kept), goal.built, c.Now([]), c.kept, built) && forall k :: k in c.kept ==> k < |built|
    ensures !overflow ==> v in c.frozen && item == Moves.Item(Moves.MovReg, c.frozen[v], argno)
    ensures !overflow ==> |c.reg.inUse| <= |old(c.reg.inUse)| + if v in old(c.frozen) then 0 else 1
  {
    built := goal.built;
    item := Moves.Item(Moves.MovReg, 0, argno);
    ghost var a := c.Now([]);
    if v !in c.frozen {
      var rt;
      rt, overflow := c.GenNewVariable(v, goal);
      if overflow { return; }
      built := goal.built + [Var(v)];
      assert goal.(built := built) == Goal(goal.head, built);
    } else {
      GrownNone(a, {});
    }
    item := Moves.Item(Moves.MovReg, c.frozen[v], argno);
    overflow := q.Push(item);
  }

  /** A compound term is built in a register that is not given back, for it has to be loaded from there. */
  method GenStructure(c: Compiler, t: Term, q: InstQueue<Moves.Item>, argno: nat, ghost goal: Goal)
    returns (overflow: bool, item: Moves.Item)
    requires c.reg.Valid() && q.Valid() && (t.List? || t.Str?) && Sound(goal, c.code, c.Debt([], []), c.reg.inUse)
    requires forall k :: k in c.kept ==> k < |goal.built|
    modifies c`code, c`frozen, c`kept, c.reg, c.reg.RegArray, q`top, q`contents, q.items
    ensures overflow ==> Crowded(|old(c.reg.inUse)| + Size(t), Size(t)) || |old(q.contents)| == INST_QUEUE_SIZE - 1
    ensures !overflow ==> c.reg.Valid() && Sound(Goal(goal.head, goal.built + [Made(t, false)]), c.code, c.Debt([], []), c.reg.inUse)
    ensures !overflow ==> q.Valid() && q.contents == old(q.contents) + [item] && Grown(old(c.Now([])), Vars(t), c.Now([]))
    ensures !overflow ==> c.kept == old(c.kept)[|goal.built| := item.arg1] && item == Moves.Item(Moves.MovReg, item.arg1, argno)
    ensures !overflow ==> |c.reg.inUse| <= |old(c.reg.inUse)| + Size(t)
  {
    var rt;
    ghost var a := c.Now([]);
    rt, overflow := c.reg.Get(RVAR);
    item := Moves.Item(Moves.MovReg, rt, argno);
    if overflow { return; }
    ghost var b := c.Now([]);
    NewIsUnneeded(goal, c.code, c.Debt([], []), a.inUse, rt);
    GrownTaken(a, rt);
    overflow := q.Push(item);
    if overflow { return; }
    overflow := c.GenBuild(t, rt, goal);
    if overflow { return; }
    GrownFrom(a, b, Vars(t), c.Now([]));
    assert goal.(built := goal.built + [Made(t, false)]) == Goal(goal.head, goal.built + [Made(t, false)]);
  }

  lemma GrownTaken(a: Stage, r: int)
    requires r !in a.inUse
    ensures Grown(a, {}, Stage(a.frozen, a.q, a.inUse[r := RVAR]))
  {
  }

  lemma GrownFrom(a: Stage, b: Stage, vars: set<nat>, c: Stage)
    requires Grown(a, {}, b) && Grown(b, vars, c)
    ensures Grown(a, vars, c)
  {
    GrownOn(a, {}, b, vars, c);
    assert {} + vars == vars;
  }

  /** Queues the load of an argument, after building it if it is compound or a new variable. */
  method GenAput(c: Compiler, t: Term, k: nat, q: InstQueue<Moves.Item>, sym: string -> int, ghost goal: Goal, ghost known: set<nat>)
    returns (overflow: bool, item: Moves.Item, ghost built: seq<Term>)
    requires c.reg.Valid() && q.Valid() && Sound(goal, c.code, c.Debt([], []), c.reg.inUse)
    requires (forall k :: k in c.kept ==> k < |goal.built|) && forall v :: v in known ==> v in c.frozen
    modifies c`code, c`frozen, c`kept, c.reg, c.reg.RegArray, q`top, q`contents, q.items
    ensures overflow ==> Crowded(|old(c.reg.inUse)| + Cost(known, t), Size(t)) || |old(q.contents)| == INST_QUEUE_SIZE - 1
    ensures !overflow ==> c.reg.Valid() && Sound(Goal(goal.head, built), c.code, c.Debt([], []), c.reg.inUse)
    ensures !overflow ==> q.Valid() && q.contents == old(q.contents) + [item]
    ensures !overflow ==> Later(old(c.Now([])), old(c.kept), goal.built, c.Now([]), c.kept, built) && forall k :: k in c.kept ==> k < |built|
    ensures !overflow ==> LoadRight(item, t, k, sym, c.frozen, c.kept, built, |goal.built|)
    ensures !overflow ==> |c.reg.inUse| <= |old(c.reg.inUse)| + Cost(known, t)
  {
    built := goal.built;
    match t
    case Var(v) =>
      overflow, item, built := GenVariable(c, v, q, k + 1, goal);
    case List(_, _) =>
      overflow, item := GenStructure(c, t, q, k + 1, goal);
      built := goal.built + [Made(t, false)];
    case Str(_, _) =>
      overflow, item := GenStructure(c, t, q, k + 1, goal);
      built := goal.built + [Made(t, false)];
    case _ =>
      item := match t
        case Atom(name) => Moves.Item(Moves.PutCon, sym(name), k + 1)
        case Int(n) => Moves.Item(Moves.PutNumCon, n, k + 1)
        case _ => Moves.Item(Moves.PutNil, 0, k + 1);
      overflow := q.Push(item);
      GrownNone(c.Now([]), {});
  }

  // ----- what a call passes -----

  /** Under this reading of cells the machine that loads the arguments starts from these registers. */
  ghost predicate Reads(val: Moves.Cell -> Ground, sym: string -> int, m0: Moves.Machine, regs: int -> Ground) {
    && (forall name :: val(Moves.ConCell(sym(name))) == GAtom(name))
    && (forall n :: val(Moves.NumCell(n)) == GInt(n)) && val(Moves.NilCell) == GNil
    && (forall r :: val(m0.regs(r)) == regs(r))
  }

  /** The argument registers hold these terms under s. */
  ghost predicate Called(args: seq<Term>, s: nat -> Ground, val: Moves.Cell -> Ground, m: Moves.Machine) {
    forall k :: 0 <= k < |args| ==> val(m.regs(k + 1)) == Apply(s, args[k])
  }

  /** Whenever the clause applies, the code gets through and leaves these arguments in the registers. */
  ghost predicate CallsRight(head: seq<Term>, built: seq<Term>, args: seq<Term>, sym: string -> int, code: seq<Instr>, moves: seq<Moves.Instr>) {
    forall s, input, m0, val :: CallRight(head, built, args, sym, code, moves, s, input, m0, val)
  }

  ghost predicate CallRight(head: seq<Term>, built: seq<Term>, args: seq<Term>, sym: string -> int, code: seq<Instr>, moves: seq<Moves.Instr>,
                            s: nat -> Ground, input: Input, m0: Moves.Machine, val: Moves.Cell -> Ground) {
    Matches(s, Goal(head, built), input) ==>
      Run(code, input).Ok? && (Reads(val, sym, m0, Run(code, input).m.regs) ==> Called(args, s, val, Moves.Run(moves, m0)))
  }

  /** The arguments as they are built. */
  function MadeAll(body: seq<Term>): (r: seq<Term>)
    ensures |r| == |body| && forall k :: 0 <= k < |body| ==> r[k] == Made(body[k], false)
  {
    seq(|body|, k requires 0 <= k < |body| => Made(body[k], false))
  }

  predicate AllCutSafe(body: seq<Term>) {
    forall k :: 0 <= k < |body| ==> CutSafe(body[k], false)
  }

  lemma ArgumentLoaded(goal: Goal, code: seq<Instr>, frozen: map<nat, int>, kept: map<nat, int>, input: Input, s: nat -> Ground,
                       item: Moves.Item, t: Term, k: nat, slot: nat, sym: string -> int, val: Moves.Cell -> Ground, m0: Moves.Machine, m: Moves.Machine)
    requires Decides(goal, code, frozen, kept, input) && Matches(s, goal, input) && LoadRight(item, t, k, sym, frozen, kept, goal.built, slot)
    requires Run(code, input).Ok? && Reads(val, sym, m0, Run(code, input).m.regs) && Moves.Holds(item, m0, m)
    ensures val(m.regs(k + 1)) == Apply(s, Made(t, false))
  {
    assert Agrees(s, frozen, Run(code, input).m.regs);
  }

  /** With all loads in time every call passes the arguments as they are built. */
  lemma LoadsCall(head: seq<Term>, built: seq<Term>, body: seq<Term>, sym: string -> int, code: seq<Instr>, moves: seq<Moves.Instr>,
                  frozen: map<nat, int>, kept: map<nat, int>, items: seq<Moves.Item>, slots: seq<nat>)
    requires forall input :: Decides(Goal(head, built), code, frozen, kept, input)
    requires LoadsRight(items, body, sym, frozen, kept, built, slots) && |items| == |body|
    requires forall m0 :: Moves.AllHold(items, m0, Moves.Run(moves, m0))
    ensures CallsRight(head, built, MadeAll(body), sym, code, moves)
  {
    var goal := Goal(head, built);
    forall s, input, m0, val
      ensures CallRight(head, built, MadeAll(body), sym, code, moves, s, input, m0, val)
    {
      assert Decides(goal, code, frozen, kept, input);
      if Matches(s, goal, input) && Reads(val, sym, m0, Run(code, input).m.regs) {
        forall k | 0 <= k < |body|
          ensures val(Moves.Run(moves, m0).regs(k + 1)) == Apply(s, MadeAll(body)[k])
        {
          assert Moves.AllHold(items, m0, Moves.Run(moves, m0)) && LoadRight(items[k], body[k], k, sym, frozen, kept, built, slots[k]);
          ArgumentLoaded(goal, code, frozen, kept, input, s, items[k], body[k], k, slots[k], sym, val, m0, Moves.Run(moves, m0));
        }
      }
    }
  }

  // ----- a call to look at -----

  /** Different atoms have different places in the symbol table. */
  ghost predicate Injective(sym: string -> int) {
    forall a, b :: sym(a) == sym(b) ==> a == b
  }

  ghost function NameAt(sym: string -> int, c: int): Ground {
    if name :| sym(name) == c then GAtom(name) else GNil
  }

  /** Integers are held as such, any other value by reference to its register. */
  ghost function CellOf(regs: int -> Ground, r: int): Moves.Cell {
    if regs(r).GInt? then Moves.NumCell(regs(r).n) else Moves.OtherCell(r)
  }

  ghost function ValueOf(regs: int -> Ground, sym: string -> int, c: Moves.Cell): Ground {
    match c
    case NilCell => GNil
    case ConCell(a) => NameAt(sym, a)
    case NumCell(n) => GInt(n)
    case VarCell(_) => GNil
    case OtherCell(r) => if regs(r).GInt? then GNil else regs(r)
  }

  ghost function Cells(regs: int -> Ground): Moves.Machine {
    Moves.Machine(r => CellOf(regs, r), 0)
  }

  lemma ReadsCells(regs: int -> Ground, sym: string -> int)
    requires Injective(sym)
    ensures Reads(c => ValueOf(regs, sym, c), sym, Cells(regs), regs)
  {
    var val := c => ValueOf(regs, sym, c);
    forall name
      ensures val(Moves.ConCell(sym(name))) == GAtom(name)
    {
    }
  }

  /** Under any substitution the clause applies to some input. */
  lemma SomeInput(head: seq<Term>, built: seq<Term>, s: nat -> Ground) returns (input: Input)
    ensures Matches(s, Goal(head, built), input)
  {
    input := Input(r => if 1 <= r <= |head| then Apply(s, head[r - 1]) else GNil, (k: nat) => if k < |built| then Apply(s, built[k]) else GNil);
  }

  lemma CutHarmless(head: seq<Term>, built: seq<Term>, body: seq<Term>, sym: string -> int, code: seq<Instr>, moves: seq<Moves.Instr>)
    requires AllCutSafe(body) && CallsRight(head, built, MadeAll(body), sym, code, moves)
    ensures CallsRight(head, built, body, sym, code, moves)
  {
    forall s, input, m0, val
      ensures CallRight(head, built, body, sym, code, moves, s, input, m0, val)
    {
      assert CallRight(head, built, MadeAll(body), sym, code, moves, s, input, m0, val);
      forall k | 0 <= k < |body|
        ensures Apply(s, body[k]) == Apply(s, MadeAll(body)[k])
      {
        MadeSameIff(s, body[k], false);
      }
    }
  }

  /** A cut that changes an integer shows in a call. */
  lemma CutShows(head: seq<Term>, built: seq<Term>, body: seq<Term>, sym: string -> int, code: seq<Instr>, moves: seq<Moves.Instr>, k: nat)
    requires Injective(sym) && CallsRight(head, built, MadeAll(body), sym, code, moves) && k < |body| && !CutSafe(body[k], false)
    ensures !CallsRight(head, built, body, sym, code, moves)
  {
    var s := (v: nat) => GNil;
    var input := SomeInput(head, built, s);
    assert CallRight(head, built, MadeAll(body), sym, code, moves, s, input, Cells(_ => GNil), _ => GNil);
    var regs := Run(code, input).m.regs;
    var m0, val := Cells(regs), c => ValueOf(regs, sym, c);
    ReadsCells(regs, sym);
    assert CallRight(head, built, MadeAll(body), sym, code, moves, s, input, m0, val);
    assert val(Moves.Run(moves, m0).regs(k + 1)) == Apply(s, MadeAll(body)[k]);
    MadeSameIff(s, body[k], false);
    assert !CallRight(head, built, body, sym, code, moves, s, input, m0, val);
  }

  /** A substitution that tells the variable v from the argument t. */
  function Telling(t: Term, v: nat): nat -> Ground {
    w => if w == v then GInt(if t.Int? then t.n + 1 else 0) else GNil
  }

  /** The load of the item that overtakes tells, under that substitution. */
  lemma OvertakerTells(items: seq<Moves.Item>, head: seq<Term>, body: seq<Term>, sym: string -> int, o: Owed, built: seq<Term>, slots: seq<nat>, inUse: map<int, int>,
                       code: seq<Instr>, input: Input, i: nat, j: nat)
    requires Loaded(items, head, body, sym, o, built, slots, inUse) && Moves.Overtakes(items, i, j)
    requires body[j].Var? ==> Matches(Telling(body[i], body[j].v), Goal(head, built), input)
    requires Decides(Goal(head, built), code, o.frozen, o.kept, input) && Run(code, input).Ok?
    ensures var regs := Run(code, input).m.regs;
      && body[j].Var? && items[j].op.MovReg? && items[j].arg2 == j + 1
      && Moves.Tells(items[i], Cells(regs)) && CellOf(regs, items[j].arg1) == Moves.NumCell(Telling(body[i], body[j].v)(body[j].v).n)
  {
    assert LoadRight(items[i], body[i], i, sym, o.frozen, o.kept, built, slots[i]);
    assert LoadRight(items[j], body[j], j, sym, o.frozen, o.kept, built, slots[j]);
    ReadsHome(items, head, body, sym, o, built, slots, inUse, j, i + 1);
    var s, regs := Telling(body[i], body[j].v), Run(code, input).m.regs;
    assert Agrees(s, o.frozen, regs);
    if body[i].List? || body[i].Str? {
      assert regs(items[i].arg1) == Apply(s, Made(body[i], false));
    }
  }

  /** Only the cell of the integer itself has its value. */
  lemma ValueDiffers(regs: int -> Ground, sym: string -> int, c: Moves.Cell, n: int)
    requires c != Moves.NumCell(n)
    ensures ValueOf(regs, sym, c) != GInt(n)
  {
  }

  /** With a load too late, some call that applies passes an argument wrong. */
  lemma LateLoadShows(items: seq<Moves.Item>, head: seq<Term>, body: seq<Term>, sym: string -> int, o: Owed, built: seq<Term>, slots: seq<nat>, inUse: map<int, int>,
                      code: seq<Instr>, moves: seq<Moves.Instr>)
    requires Injective(sym) && Loaded(items, head, body, sym, o, built, slots, inUse) && Moves.LosesValue(items, moves)
    requires forall input :: Decides(Goal(head, built), code, o.frozen, o.kept, input)
    ensures !CallsRight(head, built, body, sym, code, moves)
  {
    var i: nat, j: nat :| Moves.Overtakes(items, i, j) && Moves.MoveLost(items, moves, i, j);
    assert LoadRight(items[i], body[i], i, sym, o.frozen, o.kept, built, slots[i]);
    ReadsHome(items, head, body, sym, o, built, slots, inUse, j, i + 1);
    var s := Telling(body[i], body[j].v);
    var input := SomeInput(head, built, s);
    assert Decides(Goal(head, built), code, o.frozen, o.kept, input);
    OvertakerTells(items, head, body, sym, o, built, slots, inUse, code, input, i, j);
    LoadShows(head, built, body, sym, code, moves, s, input, items, i, j);
  }

  lemma LoadShows(head: seq<Term>, built: seq<Term>, body: seq<Term>, sym: string -> int, code: seq<Instr>, moves: seq<Moves.Instr>,
                  s: nat -> Ground, input: Input, items: seq<Moves.Item>, i: nat, j: nat)
    requires Injective(sym) && |items| == |body| && i < |items| && j < |items| && Moves.MoveLost(items, moves, i, j)
    requires Matches(s, Goal(head, built), input) && Run(code, input).Ok? && body[j].Var? && s(body[j].v).GInt?
    requires var regs := Run(code, input).m.regs;
      && Moves.Tells(items[i], Cells(regs)) && items[j].op.MovReg? && items[j].arg2 == j + 1
      && CellOf(regs, items[j].arg1) == Moves.NumCell(s(body[j].v).n)
    ensures !CallsRight(head, built, body, sym, code, moves)
  {
    var regs := Run(code, input).m.regs;
    var m0, val := Cells(regs), c => ValueOf(regs, sym, c);
    ReadsCells(regs, sym);
    var m := Moves.Run(moves, m0);
    assert !Moves.Holds(items[j], m0, m);
    ValueDiffers(regs, sym, m.regs(j + 1), s(body[j].v).n);
    assert !Called(body, s, val, m);
    assert !CallRight(head, built, body, sym, code, moves, s, input, m0, val);
  }

  // ----- a whole clause -----

  lemma CostNext(known: set<nat>, ts: seq<Term>, i: nat)
    requires i < |ts|
    ensures Costs(known, ts[i..]) == Cost(known, ts[i]) + Costs(known, ts[i + 1..])
  {
    assert ts[i..][1..] == ts[i + 1..];
  }

  lemma HomesKnown(head: seq<Term>, frozen: map<nat, int>, inUse: map<int, int>)
    requires HomesRight(head, frozen, inUse)
    ensures forall v :: v in VarsAll(head) ==> v in frozen
  {
    assert Open(0);
  }

  /** Queues all arguments of the body. */
  method GenBody(c: Compiler, body: seq<Term>, q: InstQueue<Moves.Item>, sym: string -> int, ghost head: seq<Term>)
    returns (overflow: bool, items: seq<Moves.Item>, ghost built: seq<Term>, ghost slots: seq<nat>)
    requires c.reg.Valid() && Sound(Goal(head, []), c.code, c.Debt([], []), c.reg.inUse) && c.kept == map[] && HomesRight(head, c.frozen, c.reg.inUse)
    requires q.Valid() && q.contents == [] && |body| < INST_QUEUE_SIZE
    modifies c`code, c`frozen, c`kept, c.reg, c.reg.RegArray, q`top, q`contents, q.items
    ensures overflow ==> Crowded(|old(c.reg.inUse)| + Costs(VarsAll(head), body), SizeAll(body))
    ensures !overflow ==> c.reg.Valid() && Sound(Goal(head, built), c.code, c.Debt([], []), c.reg.inUse)
    ensures !overflow ==> q.Valid() && q.contents == items && |items| == |body|
    ensures !overflow ==> LoadsRight(items, body, sym, c.frozen, c.kept, built, slots) && HomesRight(head, c.frozen, c.reg.inUse)
    ensures !overflow ==> |c.reg.inUse| <= |old(c.reg.inUse)| + Costs(VarsAll(head), body)
  {
    overflow, items, built, slots := false, [], [], [];
    var i := 0;
    ghost var known := VarsAll(head);
    while i < |body|
      invariant 0 <= i <= |body| && c.reg.Valid() && Sound(Goal(head, built), c.code, c.Debt([], []), c.reg.inUse)
      invariant q.Valid() && q.contents == items && |items| == i && forall k :: k in c.kept ==> k < |built|
      invariant LoadsRight(items, body, sym, c.frozen, c.kept, built, slots) && HomesRight(head, c.frozen, c.reg.inUse)
      invariant |c.reg.inUse| + Costs(known, body[i..]) <= |old(c.reg.inUse)| + Costs(known, body) && SizeAll(body[i..]) <= SizeAll(body)
    {
      CostNext(known, body, i);
      SizeNext(body, i);
      HomesKnown(head, c.frozen, c.reg.inUse);
      var item;
      ghost var a, kept, was := c.Now([]), c.kept, built;
      overflow, item, built := GenAput(c, body[i], i, q, sym, Goal(head, built), known);
      if overflow { return; }
      LaterHomes(head, a, kept, was, c.Now([]), c.kept, built);
      LoadsOneMore(items, body, sym, a, kept, was, slots, c.Now([]), c.kept, built, item, |was|);
      items, slots := items + [item], slots + [|was|];
      i := i + 1;
    }
  }

  lemma LoadedNow(c: Compiler, goal: Goal, items: seq<Moves.Item>, body: seq<Term>, sym: string -> int, slots: seq<nat>)
    requires c.reg.Valid() && Sound(goal, c.code, c.Debt([], []), c.reg.inUse) && |body| <= c.reg.size
    requires LoadsRight(items, body, sym, c.frozen, c.kept, goal.built, slots) && |items| == |body| && HomesRight(goal.head, c.frozen, c.reg.inUse)
    ensures Loaded(items, goal.head, body, sym, c.Debt([], []), goal.built, slots, c.reg.inUse)
  {
    assert Open(0);
    forall r | 1 <= r <= |body|
      ensures r in c.reg.inUse && c.reg.inUse[r] == NVAR
    {
      c.reg.ArgumentsStay(r);
    }
  }

  /** What the code does for all inputs, however the loads are sequenced. */
  lemma ClauseVerdict(head: seq<Term>, body: seq<Term>, sym: string -> int, code: seq<Instr>, moves: seq<Moves.Instr>,
                      items: seq<Moves.Item>, o: Owed, built: seq<Term>, slots: seq<nat>, inUse: map<int, int>)
    requires Loaded(items, head, body, sym, o, built, slots, inUse)
    requires forall input :: Decides(Goal(head, built), code, o.frozen, o.kept, input)
    requires Moves.InTime(items) ==> forall m0 :: Moves.AllHold(items, m0, Moves.Run(moves, m0))
    requires !Moves.InTime(items) ==> Moves.LosesValue(items, moves)
    ensures Moves.InTime(Loads(head, body)) ==> CallsRight(head, built, MadeAll(body), sym, code, moves)
    ensures Injective(sym) ==> (CallsRight(head, built, body, sym, code, moves) <==> Moves.InTime(Loads(head, body)) && AllCutSafe(body))
  {
    InTimeOfClause(items, head, body, sym, o, built, slots, inUse);
    if !Moves.InTime(items) {
      if Injective(sym) { LateLoadShows(items, head, body, sym, o, built, slots, inUse, code, moves); }
    } else {
      LoadsCall(head, built, body, sym, code, moves, o.frozen, o.kept, items, slots);
      if AllCutSafe(body) {
        CutHarmless(head, built, body, sym, code, moves);
      } else if Injective(sym) {
        var k :| 0 <= k < |body| && !CutSafe(body[k], false);
        CutShows(head, built, body, sym, code, moves, k);
      }
    }
  }

  /** Registers and queues certainly suffice. */
  ghost predicate Fits(head: seq<Term>, body: seq<Term>) {
    var arity := if |head| > |body| then |head| else |body|;
    && arity + |body| + 1 + SizeAll(head) - |head| + Costs(VarsAll(head), body) < MAX_REGS - 1
    && SizeAll(head) < INST_QUEUE_SIZE - 1 && SizeAll(body) < INST_QUEUE_SIZE - 1
  }

  /**
   Compiles a clause. The code decides whether the clause applies; and it passes the body's arguments
   right, whenever the clause applies, exactly if the loads are in time, as they are for up to 123
   arguments, and no integer in them is changed by the cut to a C int.
   */
  method CompileClause(head: seq<Term>, body: seq<Term>, sym: string -> int)
    returns (overflow: bool, code: seq<Instr>, moves: seq<Moves.Instr>, frozen: map<nat, int>, ghost built: seq<Term>, ghost kept: map<nat, int>)
    requires |head| + 1 < MAX_REGS && |body| + 1 < MAX_REGS
    ensures !overflow ==> forall input :: Decides(Goal(head, built), code, frozen, kept, input)
    ensures !overflow && Moves.InTime(Loads(head, body)) ==> CallsRight(head, built, MadeAll(body), sym, code, moves)
    ensures !overflow && Injective(sym) ==>
              (CallsRight(head, built, body, sym, code, moves) <==> Moves.InTime(Loads(head, body)) && AllCutSafe(body))
    ensures 2 * |body| <= Moves.ROOM ==> Moves.InTime(Loads(head, body))
    ensures Fits(head, body) ==> !overflow
  {
    var c := new Compiler(if |head| > |body| then |head| else |body|);
    code, moves, frozen, built, kept := [], [], map[], [], map[];
    if 2 * |body| <= Moves.ROOM { Moves.SmallQueuesInTime(Loads(head, body)); }
    overflow := GenHead(c, head);
    if overflow { return; }
    var q := new InstQueue<Moves.Item>();
    var items;
    ghost var slots;
    overflow, items, built, slots := GenBody(c, body, q, sym, head);
    if overflow { return; }
    ghost var goal, o, inUse := Goal(head, built), c.Debt([], []), c.reg.inUse;
    code, frozen, kept := c.code, c.frozen, c.kept;
    forall input
      ensures Decides(goal, code, frozen, kept, input)
    {
      NothingOwed(goal, code, frozen, kept, inUse, input);
    }
    LoadsWellQueued(items, body, sym, goal, code, o, slots, c.reg);
    LoadedNow(c, goal, items, body, sym, slots);
    Moves.SavesGrow(items, 0, |items|);
    moves, overflow := Moves.GenMvs(q, c.reg, items);
    if !overflow { ClauseVerdict(head, body, sym, code, moves, items, o, built, slots, inUse); }
  }

  ghost predicate HeadMatches(s: nat -> Ground, head: seq<Term>, regs: int -> Ground) {
    forall i :: 0 <= i < |head| ==> Apply(s, head[i]) == regs(i + 1)
  }

  /** What is built for the body never decides: for some eventual values of it the code gets through exactly if the head matches. */
  lemma BodyBuildsAlways(head: seq<Term>, built: seq<Term>, code: seq<Instr>, frozen: map<nat, int>, kept: map<nat, int>, regs: int -> Ground)
    requires forall input :: Decides(Goal(head, built), code, frozen, kept, input)
    ensures (exists hope :: Run(code, Input(regs, hope)).Ok?) <==> exists s :: HeadMatches(s, head, regs)
  {
    if hope :| Run(code, Input(regs, hope)).Ok? {
      assert Decides(Goal(head, built), code, frozen, kept, Input(regs, hope));
      var s :| Matches(s, Goal(head, built), Input(regs, hope));
      assert HeadMatches(s, head, regs);
    }
    if s :| HeadMatches(s, head, regs) {
      var hope := (k: nat) => if k < |built| then Apply(s, built[k]) else GNil;
      assert Matches(s, Goal(head, built), Input(regs, hope));
      assert Decides(Goal(head, built), code, frozen, kept, Input(regs, hope));
    }
  }

  // ----- two clauses that go wrong -----

  /** p :- q([1, 4294967301]). */
  function CutBody(): seq<Term> {
    [List(Int(1), List(Int(4294967301), Nil))]
  }

  /** The integer is 2^32 + 5. */
  lemma CutDigits()
    ensures ToCInt(4294967301) == 5
  {
  }

  lemma CutTail(n: int)
    requires ToCInt(n) == 5 && n > 0xffff
    ensures Made(List(Int(n), Nil), true) == List(Int(5), Nil) && !CutSafe(List(Int(n), Nil), true)
  {
    var tail := List(Int(n), Nil);
    assert Short(true, tail) && !Short(false, tail);
  }

  lemma CutList(tail: Term, made: Term)
    requires Made(tail, true) == made && !CutSafe(tail, true)
    ensures Made(List(Int(1), tail), false) == List(Int(1), made) && !CutSafe(List(Int(1), tail), false)
  {
  }

  lemma CutFacts()
    ensures MadeAll(CutBody()) == [List(Int(1), List(Int(5), Nil))] && !AllCutSafe(CutBody())
  {
    CutDigits();
    CutTail(4294967301);
    CutList(List(Int(4294967301), Nil), List(Int(5), Nil));
    assert MadeAll(CutBody())[0] == List(Int(1), List(Int(5), Nil));
    assert !CutSafe(CutBody()[0], false);
  }

  lemma CutFits()
    ensures Fits([], CutBody())
  {
    var body := CutBody();
    assert Size(body[0]) == 5;
    assert SizeAll(body[1..]) == 0 && Costs({}, body[1..]) == 0;
    assert SizeAll(body) == 5 && Costs({}, body) == 5;
  }

  /** The call passes [1, 5] instead. */
  method CutClause(sym: string -> int) returns (code: seq<Instr>, moves: seq<Moves.Instr>, ghost built: seq<Term>)
    ensures CallsRight([], built, [List(Int(1), List(Int(5), Nil))], sym, code, moves)
    ensures Injective(sym) ==> !CallsRight([], built, CutBody(), sym, code, moves)
  {
    var overflow, frozen;
    ghost var kept;
    CutFacts();
    CutFits();
    overflow, code, moves, frozen, built, kept := CompileClause([], CutBody(), sym);
  }

  /** p(A1, ..., An) :- q([], A1, ..., An). */
  function ShiftHead(n: nat): (ts: seq<Term>)
    ensures |ts| == n && forall k :: 0 <= k < n ==> ts[k] == Var(k)
  {
    seq(n, k requires 0 <= k < n => Var(k))
  }

  function ShiftBody(n: nat): seq<Term> {
    [Nil] + ShiftHead(n)
  }

  /** Passing on n arguments one place further goes wrong from 123 on. */
  lemma ShiftInTimeIff(n: nat)
    requires n + 1 < INST_QUEUE_SIZE
    ensures Moves.InTime(Loads(ShiftHead(n), ShiftBody(n))) <==> n <= 122
  {
    forall k: nat | k < n
      ensures Home(ShiftHead(n), k) == k + 1
    {
      HomeOfShift(n, k);
    }
    assert Loads(ShiftHead(n), ShiftBody(n)) == Moves.ChainOfMoves(n);
    Moves.ChainInTimeIff(n);
  }

  lemma {:induction false} HomeOfShift(n: nat, k: nat)
    requires k < n
    ensures Home(ShiftHead(n), k) == k + 1 && forall v :: v in VarsAll(ShiftHead(n)) ==> v < n
  {
    var init := ShiftHead(n)[..n - 1];
    assert init == ShiftHead(n - 1) && ShiftHead(n) == init + [Var(n - 1)];
    VarsSnoc(init, Var(n - 1));
    if n > 1 { HomeOfShift(n - 1, if k < n - 1 then k else 0); }
  }

  lemma {:induction false} ShiftCosts(n: nat, known: set<nat>, m: nat)
    requires m <= n && forall v :: 0 <= v < n ==> v in known
    ensures Costs(known, ShiftHead(n)[m..]) == 0 && SizeAll(ShiftHead(n)[m..]) == n - m
    decreases n - m
  {
    if m < n {
      ShiftCosts(n, known, m + 1);
      CostNext(known, ShiftHead(n), m);
      SizeNext(ShiftHead(n), m);
    }
  }

  lemma ShiftFits()
    ensures Fits(ShiftHead(123), ShiftBody(123))
  {
    var head, body, known := ShiftHead(123), ShiftBody(123), VarsAll(ShiftHead(123));
    forall v: nat | v < 123
      ensures v in known
    {
      HomeOfShift(123, v);
    }
    ShiftCosts(123, known, 0);
    assert head[0..] == head && body[1..] == head && body[0] == Nil;
    assert SizeAll(body) == 1 + SizeAll(head) && Costs(known, body) == Costs(known, head);
  }

  /** The clause with 123 arguments is compiled, and passes some of them wrong. */
  method ShiftClause(sym: string -> int) returns (code: seq<Instr>, moves: seq<Moves.Instr>, ghost built: seq<Term>)
    ensures Injective(sym) ==> !CallsRight(ShiftHead(123), built, ShiftBody(123), sym, code, moves)
  {
    var overflow, frozen;
    ghost var kept;
    ShiftFits();
    ShiftInTimeIff(123);
    overflow, code, moves, frozen, built, kept := CompileClause(ShiftHead(123), ShiftBody(123), sym);
  }
}
