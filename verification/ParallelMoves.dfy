/**
 Sequencing the loads of a body literal's argument registers. The queue holds pairs
 of a source (constant, fresh variable or register) and a target register; registers
 may overlap in any way. The sequencer emits a pair once its target is no longer
 needed as a source, delays it otherwise, and breaks cycles with a new register.
 */
module ParallelMoves {
  import opened Hiding
  import opened RegAlloc
  import opened InstQueues

  datatype Opcode = PutNil | PutCon | PutNumCon | PutTVar | MovReg
  datatype Item = Item(op: Opcode, arg1: int, arg2: int)

  /** Emitted instructions: source operand first, target register last. */
  datatype Instr = Instr(op: Opcode, src: int, dst: int)

  // ----- the machine -----

  datatype Cell = NilCell | ConCell(c: int) | NumCell(n: int) | VarCell(addr: int) | OtherCell(x: int)

  /** Registers and the top of the heap, where fresh variables are made. */
  datatype Machine = Machine(regs: int -> Cell, hreg: int)

  ghost function Set(m: Machine, r: int, v: Cell): Machine {
    m.(regs := x => if x == r then v else m.regs(x))
  }

  ghost function Step(i: Instr, m: Machine): Machine {
    match i.op
    case PutNil => Set(m, i.dst, NilCell)
    case PutCon => Set(m, i.dst, ConCell(i.src))
    case PutNumCon => Set(m, i.dst, NumCell(i.src))
    case MovReg => Set(m, i.dst, m.regs(i.src))
    case PutTVar => Set(Set(m, i.src, VarCell(m.hreg)), i.dst, VarCell(m.hreg)).(hreg := m.hreg + 1)
  }

  ghost function Run(code: seq<Instr>, m: Machine): Machine {
    if code == [] then m else Step(code[|code| - 1], Run(code[..|code| - 1], m))
  }

  lemma RunSnoc(code: seq<Instr>, i: Instr, m: Machine)
    ensures Run(code + [i], m) == Step(i, Run(code, m))
  {
    assert (code + [i])[..|code|] == code;
  }

  // ----- what is wanted -----

  /** Register r ended up with what item w asked for, starting from machine m0. */
  ghost predicate Holds(w: Item, m0: Machine, m: Machine) {
    match w.op
    case PutNil => m.regs(w.arg2) == NilCell
    case PutCon => m.regs(w.arg2) == ConCell(w.arg1)
    case PutNumCon => m.regs(w.arg2) == NumCell(w.arg1)
    case MovReg => m.regs(w.arg2) == m0.regs(w.arg1)
    case PutTVar => m.regs(w.arg2).VarCell? && m0.hreg <= m.regs(w.arg2).addr < m.hreg
  }

  ghost predicate AllHold(wanted: seq<Item>, m0: Machine, m: Machine) {
    && (forall i :: 0 <= i < |wanted| ==> Holds(wanted[i], m0, m))
    && (forall i, j :: 0 <= i < j < |wanted| && wanted[i].op.PutTVar? && wanted[j].op.PutTVar? ==>
          m.regs(wanted[i].arg2) != m.regs(wanted[j].arg2))
  }

  /** Targets are distinct argument registers; sources are argument registers or clause variables. */
  ghost predicate WellQueued(items: seq<Item>, inUse: map<int, int>) {
    && (forall i, j :: 0 <= i < j < |items| ==> items[i].arg2 != items[j].arg2)
    && (forall i :: 0 <= i < |items| ==> ArgRegister(inUse, items[i].arg2))
    && (forall i :: 0 <= i < |items| && items[i].op.PutTVar? ==> items[i].arg1 == items[i].arg2)
    && (forall i :: 0 <= i < |items| && items[i].op.MovReg? ==>
          items[i].arg1 in inUse && inUse[items[i].arg1] in {RVAR, NVAR})
  }

  ghost predicate ArgRegister(inUse: map<int, int>, r: int) {
    r in inUse && inUse[r] == NVAR
  }

  // ----- the invariant -----

  /** A pending item still asks for what some wanted item asked for. */
  ghost predicate SameRequest(x: Item, w: Item) {
    x.arg2 == w.arg2 && x.op == w.op && (!x.op.MovReg? ==> x == w)
  }

  ghost predicate Requested(wanted: seq<Item>, x: Item) {
    exists j :: 0 <= j < |wanted| && SameRequest(x, wanted[j])
  }

  ghost predicate Shape(q: seq<Item>, wanted: seq<Item>, inUse: map<int, int>) {
    && (forall i, j :: 0 <= i < j < |q| ==> q[i].arg2 != q[j].arg2)
    && (forall i :: 0 <= i < |q| ==> Requested(wanted, q[i]))
    && (forall j :: 0 <= j < |wanted| ==> ArgRegister(inUse, wanted[j].arg2))
    && (forall i, j :: 0 <= i < j < |wanted| ==> wanted[i].arg2 != wanted[j].arg2)
    && (forall j :: 0 <= j < |wanted| && wanted[j].op.PutTVar? ==> wanted[j].arg1 == wanted[j].arg2)
    && (forall j :: 0 <= j < |wanted| && wanted[j].op.MovReg? ==> wanted[j].arg1 in inUse && inUse[wanted[j].arg1] != TVAR)
    && (forall i :: 0 <= i < |q| && q[i].op.MovReg? ==> q[i].arg1 in inUse)
    // a register introduced here has one pending reader
    && (forall i, j ::
          (0 <= i < |q| && 0 <= j < |q| && i != j && q[i].op.MovReg? && q[j].op.MovReg? && q[i].arg1 == q[j].arg1)
          ==> inUse[q[i].arg1] != TVAR)
  }

  ghost predicate IsPending(q: seq<Item>, t: int) {
    exists i :: 0 <= i < |q| && q[i].arg2 == t
  }

  ghost predicate PendingRight(x: Item, wanted: seq<Item>, m0: Machine, m: Machine) {
    forall j :: 0 <= j < |wanted| && wanted[j].arg2 == x.arg2 && x.op.MovReg? ==>
      m.regs(x.arg1) == m0.regs(wanted[j].arg1)
  }

  ghost predicate Values(q: seq<Item>, wanted: seq<Item>, m0: Machine, m: Machine) {
    && m0.hreg <= m.hreg
    && (forall i :: 0 <= i < |q| ==> PendingRight(q[i], wanted, m0, m))
    && (forall j :: 0 <= j < |wanted| && !IsPending(q, wanted[j].arg2) ==> Holds(wanted[j], m0, m))
    && (forall i, j ::
          (0 <= i < j < |wanted| && wanted[i].op.PutTVar? && wanted[j].op.PutTVar? &&
           !IsPending(q, wanted[i].arg2) && !IsPending(q, wanted[j].arg2))
          ==> m.regs(wanted[i].arg2) != m.regs(wanted[j].arg2))
  }

  ghost predicate IsSource(q: seq<Item>, r: int) {
    exists i :: 0 <= i < |q| && q[i].op.MovReg? && q[i].arg1 == r
  }

  // ----- steps -----

  /** The instruction emitted for an item. */
  function Emitted(x: Item): Instr {
    Instr(x.op, x.arg1, x.arg2)
  }

  lemma EmitKeepsValues(q: seq<Item>, wanted: seq<Item>, inUse: map<int, int>, m0: Machine, m: Machine)
    requires q != [] && Shape(q, wanted, inUse) && Values(q, wanted, m0, m)
    requires !IsSource(q[1..], q[0].arg2)
    ensures Values(q[1..], wanted, m0, Step(Emitted(q[0]), m))
  {
    var x, rest := q[0], q[1..];
    var m' := Step(Emitted(x), m);
    var k :| 0 <= k < |wanted| && SameRequest(x, wanted[k]);
    assert PendingRight(q[0], wanted, m0, m);
    assert forall r :: r != x.arg2 ==> m'.regs(r) == m.regs(r);
    assert Holds(wanted[k], m0, m');
    forall i | 0 <= i < |rest|
      ensures PendingRight(rest[i], wanted, m0, m')
    {
      assert rest[i] == q[i + 1] && PendingRight(q[i + 1], wanted, m0, m);
    }
    PendingTail(q);
    forall j | 0 <= j < |wanted| && !IsPending(rest, wanted[j].arg2)
      ensures Holds(wanted[j], m0, m')
    {
      if j != k { assert wanted[j].arg2 != x.arg2 && Holds(wanted[j], m0, m); }
    }
    forall i, j | 0 <= i < j < |wanted| && wanted[i].op.PutTVar? && wanted[j].op.PutTVar? &&
      !IsPending(rest, wanted[i].arg2) && !IsPending(rest, wanted[j].arg2)
      ensures m'.regs(wanted[i].arg2) != m'.regs(wanted[j].arg2)
    {
      if i != k { assert Holds(wanted[i], m0, m) && wanted[i].arg2 != x.arg2; }
      if j != k { assert Holds(wanted[j], m0, m) && wanted[j].arg2 != x.arg2; }
    }
  }

  lemma PendingTail(q: seq<Item>)
    requires q != []
    ensures forall t :: IsPending(q, t) <==> t == q[0].arg2 || IsPending(q[1..], t)
  {
    forall t
      ensures IsPending(q, t) <==> t == q[0].arg2 || IsPending(q[1..], t)
    {
      if IsPending(q, t) {
        var i :| 0 <= i < |q| && q[i].arg2 == t;
        if i > 0 { assert q[1..][i - 1] == q[i]; }
      }
      if IsPending(q[1..], t) {
        var i :| 0 <= i < |q[1..]| && q[1..][i].arg2 == t;
        assert q[i + 1].arg2 == t;
      }
    }
  }

  lemma DropKeepsValues(q: seq<Item>, wanted: seq<Item>, inUse: map<int, int>, m0: Machine, m: Machine)
    requires q != [] && Shape(q, wanted, inUse) && Values(q, wanted, m0, m)
    requires q[0].op.MovReg? && q[0].arg1 == q[0].arg2
    ensures Values(q[1..], wanted, m0, m)
  {
    var x, rest := q[0], q[1..];
    var k :| 0 <= k < |wanted| && SameRequest(x, wanted[k]);
    assert PendingRight(q[0], wanted, m0, m);
    PendingTail(q);
    forall i | 0 <= i < |rest|
      ensures PendingRight(rest[i], wanted, m0, m)
    {
      assert rest[i] == q[i + 1] && PendingRight(q[i + 1], wanted, m0, m);
    }
    assert wanted[k].op.MovReg?;
  }

  lemma TailKeepsShape(q: seq<Item>, wanted: seq<Item>, inUse: map<int, int>, inUse': map<int, int>)
    requires q != [] && Shape(q, wanted, inUse)
    requires inUse' == (if q[0].op.MovReg? && q[0].arg1 in inUse && inUse[q[0].arg1] == TVAR then inUse - {q[0].arg1} else inUse)
    ensures Shape(q[1..], wanted, inUse')
  {
    var rest := q[1..];
    assert forall i :: 0 <= i < |rest| ==> rest[i] == q[i + 1];
    forall i | 0 <= i < |rest| && rest[i].op.MovReg?
      ensures rest[i].arg1 in inUse'
    {
      assert q[i + 1].arg1 in inUse;
    }
  }

  lemma RotateKeeps(q: seq<Item>, wanted: seq<Item>, inUse: map<int, int>)
    requires q != [] && Shape(q, wanted, inUse)
    ensures Shape(q[1..] + [q[0]], wanted, inUse)
    ensures forall m0, m :: Values(q, wanted, m0, m) ==> Values(q[1..] + [q[0]], wanted, m0, m)
  {
    var r := q[1..] + [q[0]];
    assert forall i :: 0 <= i < |r| ==> r[i] == q[if i == |q| - 1 then 0 else i + 1];
    RotatedPending(q, q[0]);
  }

  /** Breaking a cycle: the source is first saved in a register not in use. */
  lemma SaveKeeps(q: seq<Item>, wanted: seq<Item>, inUse: map<int, int>, r: int)
    requires q != [] && Shape(q, wanted, inUse) && q[0].op.MovReg? && r !in inUse
    ensures var q' := q[1..] + [Item(MovReg, r, q[0].arg2)];
      && Shape(q', wanted, inUse[r := TVAR])
      && forall m0, m :: Values(q, wanted, m0, m) ==> Values(q', wanted, m0, Step(Instr(MovReg, q[0].arg1, r), m))
  {
    var x := q[0];
    var y := Item(MovReg, r, x.arg2);
    var q' := q[1..] + [y];
    var inUse' := inUse[r := TVAR];
    var k :| 0 <= k < |wanted| && SameRequest(x, wanted[k]);
    assert SameRequest(y, wanted[k]);
    assert forall i :: 0 <= i < |q'| - 1 ==> q'[i] == q[i + 1];
    forall i | 0 <= i < |q'|
      ensures Requested(wanted, q'[i])
    {
      if i < |q'| - 1 { assert Requested(wanted, q[i + 1]); }
    }
    forall j | 0 <= j < |wanted|
      ensures ArgRegister(inUse', wanted[j].arg2)
    {
      assert ArgRegister(inUse, wanted[j].arg2);
    }
    forall m0, m | Values(q, wanted, m0, m)
      ensures Values(q', wanted, m0, Step(Instr(MovReg, x.arg1, r), m))
    {
      SaveKeepsValues(q, wanted, inUse, r, m0, m);
    }
  }

  lemma SaveKeepsValues(q: seq<Item>, wanted: seq<Item>, inUse: map<int, int>, r: int, m0: Machine, m: Machine)
    requires q != [] && Shape(q, wanted, inUse) && q[0].op.MovReg? && r !in inUse && Values(q, wanted, m0, m)
    ensures Values(q[1..] + [Item(MovReg, r, q[0].arg2)], wanted, m0, Step(Instr(MovReg, q[0].arg1, r), m))
  {
    var x := q[0];
    var y := Item(MovReg, r, x.arg2);
    var q' := q[1..] + [y];
    var m' := Step(Instr(MovReg, x.arg1, r), m);
    assert forall i :: 0 <= i < |q'| - 1 ==> q'[i] == q[i + 1];
    forall i | 0 <= i < |q'|
      ensures PendingRight(q'[i], wanted, m0, m')
    {
      assert PendingRight(q[if i == |q| - 1 then 0 else i + 1], wanted, m0, m);
    }
    RotatedPending(q, y);
    forall j | 0 <= j < |wanted|
      ensures m'.regs(wanted[j].arg2) == m.regs(wanted[j].arg2)
    {
      assert ArgRegister(inUse, wanted[j].arg2);
    }
  }

  // ----- what goes wrong -----

  predicate Identity(x: Item) {
    x.op.MovReg? && x.arg1 == x.arg2
  }

  predicate Reads(x: Item, r: int) {
    x.op.MovReg? && x.arg1 == r
  }

  /** Item i loads the register that the later item j reads. */
  predicate Overtakes(wanted: seq<Item>, i: nat, j: nat) {
    i < j < |wanted| && !Identity(wanted[i]) && Reads(wanted[j], wanted[i].arg2)
  }

  /** What item x loads differs from what its target holds to begin with. */
  ghost predicate Tells(x: Item, m0: Machine) {
    match x.op
    case PutNil => m0.regs(x.arg2) != NilCell
    case PutCon => m0.regs(x.arg2) != ConCell(x.arg1)
    case PutNumCon => m0.regs(x.arg2) != NumCell(x.arg1)
    case PutTVar => m0.regs(x.arg2).VarCell? ==> m0.regs(x.arg2).addr < m0.hreg
    case MovReg => m0.regs(x.arg1) != m0.regs(x.arg2)
  }

  /** Register u will not get v: it holds something else for good, or waits for a register that does. */
  ghost predicate Astray(q: seq<Item>, inUse: map<int, int>, u: int, v: Cell, m: Machine) {
    && ArgRegister(inUse, u)
    && ((!IsPending(q, u) && m.regs(u) != v) || exists k :: 0 <= k < |q| && Misses(q, k, u, v, m))
  }

  ghost predicate Misses(q: seq<Item>, k: nat, u: int, v: Cell, m: Machine)
    requires k < |q|
  {
    q[k].op.MovReg? && q[k].arg2 == u && !IsPending(q, q[k].arg1) && m.regs(q[k].arg1) != v
  }

  lemma EmitStaysAstray(q: seq<Item>, wanted: seq<Item>, inUse: map<int, int>, u: int, v: Cell, m: Machine)
    requires q != [] && Shape(q, wanted, inUse) && Astray(q, inUse, u, v, m)
    ensures Astray(q[1..], if q[0].op.MovReg? then AfterRelease(inUse, q[0].arg1) else inUse, u, v, Step(Emitted(q[0]), m))
  {
    var x, rest := q[0], q[1..];
    var m' := Step(Emitted(x), m);
    assert Requested(wanted, x);
    assert forall r :: r != x.arg2 ==> m'.regs(r) == m.regs(r);
    PendingTail(q);
    if IsPending(q, u) {
      var k :| 0 <= k < |q| && Misses(q, k, u, v, m);
      if k == 0 {
        assert forall i :: 0 <= i < |rest| ==> rest[i] == q[i + 1];
      } else {
        assert rest[k - 1] == q[k] && Misses(rest, k - 1, u, v, m');
      }
    }
  }

  lemma DropStaysAstray(q: seq<Item>, wanted: seq<Item>, inUse: map<int, int>, u: int, v: Cell, m: Machine)
    requires q != [] && Shape(q, wanted, inUse) && Astray(q, inUse, u, v, m) && Identity(q[0])
    ensures Astray(q[1..], inUse, u, v, m)
  {
    PendingTail(q);
    if IsPending(q, u) {
      var k :| 0 <= k < |q| && Misses(q, k, u, v, m);
      assert k > 0;
      assert q[1..][k - 1] == q[k] && Misses(q[1..], k - 1, u, v, m);
    }
  }

  lemma RotateStaysAstray(q: seq<Item>, inUse: map<int, int>, u: int, v: Cell, m: Machine)
    requires q != [] && Astray(q, inUse, u, v, m)
    ensures Astray(q[1..] + [q[0]], inUse, u, v, m)
  {
    var r := q[1..] + [q[0]];
    RotatedPending(q, q[0]);
    if IsPending(q, u) {
      var k :| 0 <= k < |q| && Misses(q, k, u, v, m);
      var i := if k == 0 then |q| - 1 else k - 1;
      assert r[i] == q[k] && Misses(r, i, u, v, m);
    }
  }

  lemma SaveStaysAstray(q: seq<Item>, wanted: seq<Item>, inUse: map<int, int>, r: int, u: int, v: Cell, m: Machine)
    requires q != [] && Shape(q, wanted, inUse) && q[0].op.MovReg? && r !in inUse && Astray(q, inUse, u, v, m)
    ensures Astray(q[1..] + [Item(MovReg, r, q[0].arg2)], inUse[r := TVAR], u, v, Step(Instr(MovReg, q[0].arg1, r), m))
  {
    var y := Item(MovReg, r, q[0].arg2);
    var q' := q[1..] + [y];
    var m' := Step(Instr(MovReg, q[0].arg1, r), m);
    RotatedPending(q, y);
    NotATarget(q, wanted, inUse, r);
    if IsPending(q, u) {
      var k :| 0 <= k < |q| && Misses(q, k, u, v, m);
      var i := if k == 0 then |q| - 1 else k - 1;
      assert q'[i] == if k == 0 then y else q[k];
      assert Misses(q', i, u, v, m');
    }
  }

  lemma NotATarget(q: seq<Item>, wanted: seq<Item>, inUse: map<int, int>, r: int)
    requires Shape(q, wanted, inUse) && r !in inUse
    ensures !IsPending(q, r)
  {
    forall i | 0 <= i < |q|
      ensures q[i].arg2 != r
    {
      assert Requested(wanted, q[i]);
    }
  }

  /** Moving the first item to the end, its source changed perhaps, leaves the same targets. */
  lemma RotatedPending(q: seq<Item>, y: Item)
    requires q != [] && y.arg2 == q[0].arg2
    ensures forall t :: IsPending(q[1..] + [y], t) <==> IsPending(q, t)
  {
    var r := q[1..] + [y];
    forall t
      ensures IsPending(r, t) <==> IsPending(q, t)
    {
      if IsPending(q, t) {
        var i :| 0 <= i < |q| && q[i].arg2 == t;
        assert r[if i == 0 then |q| - 1 else i - 1].arg2 == t;
      }
      if IsPending(r, t) {
        var i :| 0 <= i < |r| && r[i].arg2 == t;
        assert q[if i == |q| - 1 then 0 else i + 1].arg2 == t;
      }
    }
  }

  /** Emitting an item whose target is still to be read loses the value, unless it was the same anyway. */
  lemma EmitGoesAstray(q: seq<Item>, wanted: seq<Item>, inUse: map<int, int>, code: seq<Instr>, i: nat, j: nat, m0: Machine)
    requires Shape(q, wanted, inUse) && Values(q, wanted, m0, Run(code, m0))
    requires Overtakes(wanted, i, j) && q != [] && q[0] == wanted[i] && j - i < |q| && q[j - i] == wanted[j] && Tells(wanted[i], m0)
    ensures Astray(q[1..], if q[0].op.MovReg? then AfterRelease(inUse, q[0].arg1) else inUse,
                   wanted[j].arg2, m0.regs(wanted[j].arg1), Run(code + [Emitted(q[0])], m0))
  {
    var x, z, rest := wanted[i], wanted[j], q[1..];
    var m := Run(code, m0);
    assert PendingRight(q[0], wanted, m0, m) && PendingRight(q[j - i], wanted, m0, m);
    RunSnoc(code, Emitted(x), m0);
    var m' := Run(code + [Emitted(x)], m0);
    assert m'.regs(x.arg2) != m0.regs(x.arg2);
    assert Requested(wanted, z);
    assert rest[j - i - 1] == z;
    PendingTail(q);
    assert forall k :: 0 <= k < |rest| ==> rest[k] == q[k + 1];
    assert !IsPending(rest, x.arg2);
    assert Misses(rest, j - i - 1, z.arg2, m0.regs(x.arg2), m');
  }

  // ----- the two passes -----

  /** Slots the buffer has from where the queue starts. */
  const ROOM := INST_QUEUE_SIZE - START

  /** A later item reads the register item i is to load. */
  predicate Blocked(wanted: seq<Item>, i: nat)
    requires i < |wanted|
  {
    exists j :: i < j < |wanted| && Overtakes(wanted, i, j)
  }

  function BlockedCount(wanted: seq<Item>, n: nat): nat
    requires n <= |wanted|
  {
    if n == 0 then 0 else BlockedCount(wanted, n - 1) + if Blocked(wanted, n - 1) then 1 else 0
  }

  /**
   No item is met, while its target is still to be read, with the queue past the end of
   the buffer: the scans see all of it whenever it matters.
   */
  predicate InTime(wanted: seq<Item>) {
    if |wanted| < ROOM then |wanted| + BlockedCount(wanted, |wanted|) <= ROOM
    else forall i :: 0 <= i < ROOM - 1 ==> !Blocked(wanted, i)
  }

  lemma {:induction false} SameBlockedCount(a: seq<Item>, b: seq<Item>, n: nat)
    requires |a| == |b| && n <= |a| && forall i: nat :: i < |a| ==> (Blocked(a, i) <==> Blocked(b, i))
    ensures BlockedCount(a, n) == BlockedCount(b, n)
  {
    if n > 0 { SameBlockedCount(a, b, n - 1); }
  }

  /** Being in time depends only on which items overtake which. */
  lemma SameInTime(a: seq<Item>, b: seq<Item>)
    requires |a| == |b| && forall i: nat, j: nat :: Overtakes(a, i, j) <==> Overtakes(b, i, j)
    ensures InTime(a) <==> InTime(b)
  {
    forall i: nat | i < |a|
      ensures Blocked(a, i) <==> Blocked(b, i)
    {
      if Blocked(a, i) {
        var j :| i < j < |a| && Overtakes(a, i, j);
        assert Overtakes(b, i, j);
      }
      if Blocked(b, i) {
        var j :| i < j < |b| && Overtakes(b, i, j);
        assert Overtakes(a, i, j);
      }
    }
    SameBlockedCount(a, b, |a|);
  }

  /** How many of the first i items are put off in the first pass. */
  ghost function PutOffs(wanted: seq<Item>, i: nat): nat
    requires i <= |wanted|
    decreases i, 0
  {
    if i == 0 then 0 else PutOffs(wanted, i - 1) + if PutOff(wanted, i - 1) then 1 else 0
  }

  /** When item i is met, the queue goes around the end of the buffer. */
  ghost predicate Misled(wanted: seq<Item>, i: nat)
    requires i < |wanted|
    decreases i, 1
  {
    |wanted| + PutOffs(wanted, i) >= ROOM && i < ROOM - 1
  }

  ghost predicate PutOff(wanted: seq<Item>, i: nat)
    requires i < |wanted|
    decreases i, 2
  {
    Blocked(wanted, i) && !Misled(wanted, i)
  }

  ghost predicate RightUpTo(wanted: seq<Item>, i: nat)
    requires i <= |wanted|
  {
    forall k :: 0 <= k < i && Blocked(wanted, k) ==> !Misled(wanted, k)
  }

  lemma {:induction false} PutOffsBound(wanted: seq<Item>, i: nat)
    requires i <= |wanted| < INST_QUEUE_SIZE
    ensures |wanted| < ROOM ==> |wanted| + PutOffs(wanted, i) <= ROOM
    ensures |wanted| >= ROOM ==> PutOffs(wanted, i) <= if i < ROOM then 0 else i - ROOM + 1
  {
    if i > 0 {
      PutOffsBound(wanted, i - 1);
      assert PutOff(wanted, i - 1) ==> !Misled(wanted, i - 1);
      assert Misled(wanted, i - 1) <==> |wanted| + PutOffs(wanted, i - 1) >= ROOM && i - 1 < ROOM - 1;
    }
  }

  /** As long as nothing went wrong, what was blocked was put off. */
  lemma {:induction false} PutOffsCount(wanted: seq<Item>, i: nat)
    requires i <= |wanted| && RightUpTo(wanted, i)
    ensures PutOffs(wanted, i) == BlockedCount(wanted, i)
  {
    if i > 0 { PutOffsCount(wanted, i - 1); }
  }

  lemma {:induction false} BlockedCountGrows(wanted: seq<Item>, i: nat, j: nat)
    requires i <= j <= |wanted|
    ensures BlockedCount(wanted, i) <= BlockedCount(wanted, j) <= BlockedCount(wanted, i) + j - i
  {
    if i < j { BlockedCountGrows(wanted, i, j - 1); }
  }

  /** The first item that goes wrong, if any. */
  lemma {:induction false} RightOrFirst(wanted: seq<Item>, i: nat) returns (k: nat)
    requires i <= |wanted|
    ensures RightUpTo(wanted, i) || (k < i && RightUpTo(wanted, k) && Blocked(wanted, k) && Misled(wanted, k))
  {
    k := 0;
    if i > 0 {
      k := RightOrFirst(wanted, i - 1);
      if RightUpTo(wanted, i - 1) { k := i - 1; }
    }
  }

  /** The condition on the items is the condition on the run. */
  lemma InTimeIff(wanted: seq<Item>)
    requires |wanted| < INST_QUEUE_SIZE
    ensures InTime(wanted) <==> RightUpTo(wanted, |wanted|)
  {
    var n := |wanted|;
    var k := RightOrFirst(wanted, n);
    if RightUpTo(wanted, n) {
      PutOffsCount(wanted, n);
      PutOffsBound(wanted, n);
      if n >= ROOM {
        forall i | 0 <= i < ROOM - 1
          ensures !Blocked(wanted, i)
        {
          assert Misled(wanted, i);
        }
      }
    } else {
      PutOffsCount(wanted, k);
      BlockedCountGrows(wanted, k + 1, n);
    }
  }

  /** The last item is never blocked, so up to 123 items always fit. */
  lemma SmallQueuesInTime(wanted: seq<Item>)
    requires 2 * |wanted| <= ROOM
    ensures InTime(wanted)
  {
    var n := |wanted|;
    if n > 0 {
      assert !Blocked(wanted, n - 1);
      BlockedCountGrows(wanted, 0, n - 1);
    }
  }

  /** In the first pass: what has not been met yet, then what was put off, none of which reads a target. */
  ghost predicate InPass(q: seq<Item>, wanted: seq<Item>, i: nat, off: seq<Item>) {
    && i <= |wanted| && q == wanted[i..] + off && (i < |wanted| ==> |off| == PutOffs(wanted, i))
    && (forall k :: 0 <= k < |off| && off[k].op.MovReg? ==> !IsPending(q, off[k].arg1))
    && (i < |wanted| ==> forall t :: IsPending(off, t) <==> OffTarget(wanted, i, t))
  }

  ghost predicate OffTarget(wanted: seq<Item>, i: nat, t: int)
    requires i <= |wanted|
  {
    exists a :: 0 <= a < i && PutOff(wanted, a) && wanted[a].arg2 == t
  }

  /** When item i is met, register t is still to be loaded by another. */
  ghost predicate ToLoad(wanted: seq<Item>, i: nat, t: int)
    requires i < |wanted|
  {
    OffTarget(wanted, i, t) || exists j :: i < j < |wanted| && wanted[j].arg2 == t
  }

  /** Item i is put off and its source, which is still to be loaded, saved. */
  ghost predicate Saved(wanted: seq<Item>, i: nat)
    requires i < |wanted|
  {
    PutOff(wanted, i) && wanted[i].op.MovReg? && ToLoad(wanted, i, wanted[i].arg1)
  }

  /** The registers it takes. */
  ghost function Saves(wanted: seq<Item>, i: nat): nat
    requires i <= |wanted|
  {
    if i == 0 then 0 else Saves(wanted, i - 1) + if Saved(wanted, i - 1) then 1 else 0
  }

  lemma {:induction false} SavesGrow(wanted: seq<Item>, i: nat, j: nat)
    requires i <= j <= |wanted|
    ensures Saves(wanted, i) <= Saves(wanted, j) <= Saves(wanted, i) + j - i
  {
    if i < j { SavesGrow(wanted, i, j - 1); }
  }

  lemma {:induction false} NothingSaved(wanted: seq<Item>, i: nat)
    requires i <= |wanted| && forall k :: 0 <= k < i ==> !Saved(wanted, k)
    ensures Saves(wanted, i) == 0
  {
    if i > 0 { NothingSaved(wanted, i - 1); }
  }

  lemma OffTargetNext(wanted: seq<Item>, i: nat, t: int)
    requires i < |wanted|
    ensures OffTarget(wanted, i + 1, t) <==> OffTarget(wanted, i, t) || (PutOff(wanted, i) && wanted[i].arg2 == t)
  {
    if OffTarget(wanted, i + 1, t) {
      var a :| 0 <= a < i + 1 && PutOff(wanted, a) && wanted[a].arg2 == t;
      assert a == i || OffTarget(wanted, i, t);
    }
  }

  lemma PendingParts(wanted: seq<Item>, i: nat, off: seq<Item>, t: int)
    requires i <= |wanted|
    ensures IsPending(wanted[i..] + off, t) <==> IsPending(off, t) || exists j :: i <= j < |wanted| && wanted[j].arg2 == t
  {
    var q := wanted[i..] + off;
    if IsPending(q, t) {
      var k :| 0 <= k < |q| && q[k].arg2 == t;
      if k < |wanted| - i { assert wanted[i + k].arg2 == t; } else { assert off[k - (|wanted| - i)].arg2 == t; }
    }
    if IsPending(off, t) {
      var k :| 0 <= k < |off| && off[k].arg2 == t;
      assert q[|wanted| - i + k].arg2 == t;
    }
    if j :| i <= j < |wanted| && wanted[j].arg2 == t {
      assert q[j - i].arg2 == t;
    }
  }

  /** What a scan that sees the whole queue finds when item i is met. */
  lemma FirstPassScan(q: seq<Item>, wanted: seq<Item>, i: nat, off: seq<Item>)
    requires InPass(q, wanted, i, off) && i < |wanted|
    ensures q != [] && q[0] == wanted[i] && q[1..] == wanted[i + 1..] + off
    ensures !Identity(wanted[i]) ==> (IsSource(q[1..], wanted[i].arg2) <==> Blocked(wanted, i))
    ensures IsPending(q[1..], wanted[i].arg1) <==> ToLoad(wanted, i, wanted[i].arg1)
  {
    var rest, t := q[1..], wanted[i].arg2;
    assert rest == wanted[i + 1..] + off;
    PendingParts(wanted, i + 1, off, wanted[i].arg1);
    assert IsPending(q, t) by { assert q[0].arg2 == t; }
    assert forall k :: |wanted| - i - 1 <= k < |rest| ==> rest[k] == off[k - (|wanted| - i - 1)];
    if IsSource(rest, t) {
      var k :| 0 <= k < |rest| && rest[k].op.MovReg? && rest[k].arg1 == t;
      assert k < |wanted| - i - 1;
      assert !Identity(wanted[i]) ==> Overtakes(wanted, i, i + 1 + k);
    }
    if j :| i < j < |wanted| && Overtakes(wanted, i, j) {
      assert rest[j - i - 1] == wanted[j];
    }
  }

  /** After the first pass no target is read any more. */
  lemma SecondPassScan(q: seq<Item>, wanted: seq<Item>, off: seq<Item>)
    requires InPass(q, wanted, |wanted|, off) && q != []
    ensures off != [] && q[0] == off[0] && q[1..] == off[1..] && !IsSource(q[1..], q[0].arg2)
  {
    assert q == off;
    forall k | 0 <= k < |q[1..]| && q[1..][k].op.MovReg?
      ensures q[1..][k].arg1 != q[0].arg2
    {
      assert off[k + 1] == q[1..][k];
    }
  }

  lemma PassGoesOn(q: seq<Item>, wanted: seq<Item>, i: nat, off: seq<Item>)
    requires InPass(q, wanted, i, off) && i < |wanted| && !PutOff(wanted, i)
    ensures InPass(q[1..], wanted, i + 1, off)
  {
    assert q[1..] == wanted[i + 1..] + off;
    PendingTail(q);
    forall t
      ensures OffTarget(wanted, i + 1, t) <==> OffTarget(wanted, i, t)
    {
      OffTargetNext(wanted, i, t);
    }
  }

  lemma PassPutsOff(q: seq<Item>, wanted: seq<Item>, i: nat, off: seq<Item>, y: Item)
    requires InPass(q, wanted, i, off) && i < |wanted| && PutOff(wanted, i)
    requires y.arg2 == wanted[i].arg2 && (y.op.MovReg? ==> !IsPending(q[1..], y.arg1) && y.arg1 != y.arg2)
    ensures InPass(q[1..] + [y], wanted, i + 1, off + [y])
  {
    var off' := off + [y];
    assert q[0] == wanted[i] && q[1..] == wanted[i + 1..] + off;
    assert q[1..] + [y] == wanted[i + 1..] + off';
    PendingTail(q);
    RotatedPending(q, y);
    forall t
      ensures IsPending(off', t) <==> IsPending(off, t) || y.arg2 == t
    {
      if IsPending(off, t) {
        var k :| 0 <= k < |off| && off[k].arg2 == t;
        assert off'[k].arg2 == t;
      }
      assert off'[|off|].arg2 == y.arg2;
    }
    forall t
      ensures OffTarget(wanted, i + 1, t) <==> OffTarget(wanted, i, t) || y.arg2 == t
    {
      OffTargetNext(wanted, i, t);
    }
  }

  lemma PassEnds(q: seq<Item>, wanted: seq<Item>, off: seq<Item>)
    requires InPass(q, wanted, |wanted|, off) && off != []
    ensures InPass(q[1..], wanted, |wanted|, off[1..])
  {
    assert q == off && q[1..] == wanted[|wanted|..] + off[1..];
    PendingTail(q);
    forall k | 0 <= k < |off[1..]| && off[1..][k].op.MovReg?
      ensures !IsPending(q[1..], off[1..][k].arg1)
    {
      assert off[1..][k] == off[k + 1];
    }
  }

  // ----- what every turn keeps -----

  ghost predicate CodeRight(q: seq<Item>, wanted: seq<Item>, code: seq<Instr>) {
    forall m0 {:trigger Run(code, m0)} :: Values(q, wanted, m0, Run(code, m0))
  }

  ghost predicate CodeAstray(q: seq<Item>, wanted: seq<Item>, inUse: map<int, int>, code: seq<Instr>) {
    exists i: nat, j: nat {:trigger Overtakes(wanted, i, j)} :: Overtakes(wanted, i, j) && MoveAstray(q, wanted, inUse, code, i, j)
  }

  /** Item j will not get what its source held, if item i tells. */
  ghost predicate MoveAstray(q: seq<Item>, wanted: seq<Item>, inUse: map<int, int>, code: seq<Instr>, i: nat, j: nat)
    requires i < |wanted| && j < |wanted|
  {
    forall m0 {:trigger Run(code, m0)} :: Tells(wanted[i], m0) ==>
      Astray(q, inUse, wanted[j].arg2, m0.regs(wanted[j].arg1), Run(code, m0))
  }

  ghost function AfterRelease(inUse: map<int, int>, r: int): map<int, int> {
    if r in inUse && inUse[r] == TVAR then inUse - {r} else inUse
  }

  ghost predicate Going(q: seq<Item>, wanted: seq<Item>, inUse: map<int, int>, code: seq<Instr>, i: nat, off: seq<Item>) {
    i <= |wanted| && forall k {:trigger Open(k)} :: Open(k) ==>
      && Shape(q, wanted, inUse) && InPass(q, wanted, i, off)
      && if RightUpTo(wanted, i) then CodeRight(q, wanted, code) else CodeAstray(q, wanted, inUse, code)
  }

  lemma GoStart(wanted: seq<Item>, inUse: map<int, int>)
    requires WellQueued(wanted, inUse)
    ensures Going(wanted, wanted, inUse, [], 0, [])
  {
    forall i | 0 <= i < |wanted|
      ensures Requested(wanted, wanted[i]) && IsPending(wanted, wanted[i].arg2)
    {
      assert SameRequest(wanted[i], wanted[i]);
    }
    assert wanted == wanted[0..] + [];
    forall m0
      ensures Values(wanted, wanted, m0, Run([], m0))
    {
      ValuesStart(wanted, m0);
    }
  }

  lemma ValuesStart(wanted: seq<Item>, m0: Machine)
    requires forall i, j :: 0 <= i < j < |wanted| ==> wanted[i].arg2 != wanted[j].arg2
    requires forall i :: 0 <= i < |wanted| ==> IsPending(wanted, wanted[i].arg2)
    ensures Values(wanted, wanted, m0, m0)
  {
    forall i | 0 <= i < |wanted|
      ensures PendingRight(wanted[i], wanted, m0, m0)
    {
    }
  }

  /** Where a turn that does not put the item off leaves the two passes. */
  ghost function NextItem(wanted: seq<Item>, i: nat): nat {
    if i < |wanted| then i + 1 else i
  }

  ghost function NextOff(wanted: seq<Item>, i: nat, off: seq<Item>): seq<Item> {
    if i < |wanted| || off == [] then off else off[1..]
  }

  lemma PassMoves(q: seq<Item>, wanted: seq<Item>, i: nat, off: seq<Item>)
    requires InPass(q, wanted, i, off) && q != [] && (i < |wanted| ==> !PutOff(wanted, i))
    ensures InPass(q[1..], wanted, NextItem(wanted, i), NextOff(wanted, i, off))
  {
    if i < |wanted| { PassGoesOn(q, wanted, i, off); } else { PassEnds(q, wanted, off); }
  }

  lemma RightNext(wanted: seq<Item>, i: nat)
    requires i < |wanted|
    ensures RightUpTo(wanted, i + 1) <==> RightUpTo(wanted, i) && (Blocked(wanted, i) ==> !Misled(wanted, i))
  {
  }

  lemma GoDrop(q: seq<Item>, wanted: seq<Item>, inUse: map<int, int>, code: seq<Instr>, i: nat, off: seq<Item>)
    requires q != [] && Going(q, wanted, inUse, code, i, off) && Identity(q[0])
    ensures Going(q[1..], wanted, inUse, code, NextItem(wanted, i), NextOff(wanted, i, off))
  {
    assert Open(0);
    assert Requested(wanted, q[0]);
    TailKeepsShape(q, wanted, inUse, inUse);
    if i < |wanted| {
      assert q[0] == wanted[i];
      RightNext(wanted, i);
    }
    PassMoves(q, wanted, i, off);
    if RightUpTo(wanted, i) {
      forall m0
        ensures Values(q[1..], wanted, m0, Run(code, m0))
      {
        DropKeepsValues(q, wanted, inUse, m0, Run(code, m0));
      }
    } else {
      var a: nat, b: nat :| Overtakes(wanted, a, b) && MoveAstray(q, wanted, inUse, code, a, b);
      forall m0 | Tells(wanted[a], m0)
        ensures Astray(q[1..], inUse, wanted[b].arg2, m0.regs(wanted[b].arg1), Run(code, m0))
      {
        DropStaysAstray(q, wanted, inUse, wanted[b].arg2, m0.regs(wanted[b].arg1), Run(code, m0));
      }
    }
  }

  /** Emitting the first item: right if nobody reads its target any more, and a loss for good otherwise. */
  lemma GoEmit(q: seq<Item>, wanted: seq<Item>, inUse: map<int, int>, code: seq<Instr>, i: nat, off: seq<Item>)
    requires q != [] && Going(q, wanted, inUse, code, i, off) && !Identity(q[0])
    requires i < |wanted| ==> !PutOff(wanted, i)
    ensures Going(q[1..], wanted, if q[0].op.MovReg? then AfterRelease(inUse, q[0].arg1) else inUse, code + [Emitted(q[0])],
                  NextItem(wanted, i), NextOff(wanted, i, off))
    ensures q[0].op.MovReg? ==> q[0].arg1 in inUse
  {
    assert Open(0);
    TailKeepsShape(q, wanted, inUse, if q[0].op.MovReg? then AfterRelease(inUse, q[0].arg1) else inUse);
    PassMoves(q, wanted, i, off);
    if i < |wanted| { RightNext(wanted, i); }
    if !RightUpTo(wanted, i) {
      EmitAstray(q, wanted, inUse, code);
    } else if i < |wanted| && Blocked(wanted, i) {
      EmitWrong(q, wanted, inUse, code, i, off);
    } else {
      EmitRight(q, wanted, inUse, code, i, off);
    }
  }

  lemma EmitRight(q: seq<Item>, wanted: seq<Item>, inUse: map<int, int>, code: seq<Instr>, i: nat, off: seq<Item>)
    requires q != [] && Shape(q, wanted, inUse) && InPass(q, wanted, i, off) && CodeRight(q, wanted, code)
    requires !Identity(q[0]) && (i < |wanted| ==> !Blocked(wanted, i))
    ensures CodeRight(q[1..], wanted, code + [Emitted(q[0])])
  {
    NotRead(q, wanted, i, off);
    forall m0
      ensures Values(q[1..], wanted, m0, Run(code + [Emitted(q[0])], m0))
    {
      RunSnoc(code, Emitted(q[0]), m0);
      EmitKeepsValues(q, wanted, inUse, m0, Run(code, m0));
    }
  }

  lemma EmitWrong(q: seq<Item>, wanted: seq<Item>, inUse: map<int, int>, code: seq<Instr>, i: nat, off: seq<Item>)
    requires q != [] && Shape(q, wanted, inUse) && InPass(q, wanted, i, off) && CodeRight(q, wanted, code)
    requires i < |wanted| && !PutOff(wanted, i) && !Identity(q[0]) && Blocked(wanted, i)
    ensures CodeAstray(q[1..], wanted, if q[0].op.MovReg? then AfterRelease(inUse, q[0].arg1) else inUse, code + [Emitted(q[0])])
  {
    var j :| i < j < |wanted| && Overtakes(wanted, i, j);
    assert q[0] == wanted[i] && q[j - i] == wanted[j];
    forall m0 | Tells(wanted[i], m0)
      ensures Astray(q[1..], if q[0].op.MovReg? then AfterRelease(inUse, q[0].arg1) else inUse,
                     wanted[j].arg2, m0.regs(wanted[j].arg1), Run(code + [Emitted(q[0])], m0))
    {
      EmitGoesAstray(q, wanted, inUse, code, i, j, m0);
    }
  }

  lemma EmitAstray(q: seq<Item>, wanted: seq<Item>, inUse: map<int, int>, code: seq<Instr>)
    requires q != [] && Shape(q, wanted, inUse) && CodeAstray(q, wanted, inUse, code)
    ensures CodeAstray(q[1..], wanted, if q[0].op.MovReg? then AfterRelease(inUse, q[0].arg1) else inUse, code + [Emitted(q[0])])
  {
    var a: nat, b: nat :| Overtakes(wanted, a, b) && MoveAstray(q, wanted, inUse, code, a, b);
    forall m0 | Tells(wanted[a], m0)
      ensures Astray(q[1..], if q[0].op.MovReg? then AfterRelease(inUse, q[0].arg1) else inUse,
                     wanted[b].arg2, m0.regs(wanted[b].arg1), Run(code + [Emitted(q[0])], m0))
    {
      RunSnoc(code, Emitted(q[0]), m0);
      EmitStaysAstray(q, wanted, inUse, wanted[b].arg2, m0.regs(wanted[b].arg1), Run(code, m0));
    }
  }

  lemma NotRead(q: seq<Item>, wanted: seq<Item>, i: nat, off: seq<Item>)
    requires q != [] && InPass(q, wanted, i, off) && !Identity(q[0]) && (i < |wanted| ==> !Blocked(wanted, i))
    ensures !IsSource(q[1..], q[0].arg2)
  {
    if i < |wanted| { FirstPassScan(q, wanted, i, off); } else { SecondPassScan(q, wanted, off); }
  }

  lemma GoRotate(q: seq<Item>, wanted: seq<Item>, inUse: map<int, int>, code: seq<Instr>, i: nat, off: seq<Item>)
    requires q != [] && Going(q, wanted, inUse, code, i, off) && i < |wanted| && PutOff(wanted, i)
    requires q[0].op.MovReg? ==> !IsPending(q[1..], q[0].arg1)
    ensures Going(q[1..] + [q[0]], wanted, inUse, code, i + 1, off + [q[0]])
  {
    assert Open(0);
    assert q[0] == wanted[i];
    RotateKeeps(q, wanted, inUse);
    PassPutsOff(q, wanted, i, off, q[0]);
    RightNext(wanted, i);
    if RightUpTo(wanted, i) {
      forall m0
        ensures Values(q[1..] + [q[0]], wanted, m0, Run(code, m0))
      {
        assert Values(q, wanted, m0, Run(code, m0));
      }
    } else {
      var a: nat, b: nat :| Overtakes(wanted, a, b) && MoveAstray(q, wanted, inUse, code, a, b);
      forall m0 | Tells(wanted[a], m0)
        ensures Astray(q[1..] + [q[0]], inUse, wanted[b].arg2, m0.regs(wanted[b].arg1), Run(code, m0))
      {
        RotateStaysAstray(q, inUse, wanted[b].arg2, m0.regs(wanted[b].arg1), Run(code, m0));
      }
    }
  }

  lemma GoSave(q: seq<Item>, wanted: seq<Item>, inUse: map<int, int>, code: seq<Instr>, i: nat, off: seq<Item>, r: int)
    requires q != [] && Going(q, wanted, inUse, code, i, off) && i < |wanted| && PutOff(wanted, i)
    requires q[0].op.MovReg? && IsPending(q[1..], q[0].arg1) && r !in inUse
    ensures var y := Item(MovReg, r, q[0].arg2);
      Going(q[1..] + [y], wanted, inUse[r := TVAR], code + [Instr(MovReg, q[0].arg1, r)], i + 1, off + [y])
    ensures q[0].arg1 in inUse && inUse[q[0].arg1] == NVAR
  {
    assert Open(0);
    var y := Item(MovReg, r, q[0].arg2);
    assert q[0] == wanted[i];
    TargetKind(q, wanted, inUse);
    NotATarget(q, wanted, inUse, r);
    PendingTail(q);
    SaveKeeps(q, wanted, inUse, r);
    PassPutsOff(q, wanted, i, off, y);
    RightNext(wanted, i);
    if RightUpTo(wanted, i) {
      forall m0
        ensures Values(q[1..] + [y], wanted, m0, Run(code + [Instr(MovReg, q[0].arg1, r)], m0))
      {
        RunSnoc(code, Instr(MovReg, q[0].arg1, r), m0);
        assert Values(q, wanted, m0, Run(code, m0));
      }
    } else {
      var a: nat, b: nat :| Overtakes(wanted, a, b) && MoveAstray(q, wanted, inUse, code, a, b);
      forall m0 | Tells(wanted[a], m0)
        ensures Astray(q[1..] + [y], inUse[r := TVAR], wanted[b].arg2, m0.regs(wanted[b].arg1), Run(code + [Instr(MovReg, q[0].arg1, r)], m0))
      {
        RunSnoc(code, Instr(MovReg, q[0].arg1, r), m0);
        SaveStaysAstray(q, wanted, inUse, r, wanted[b].arg2, m0.regs(wanted[b].arg1), Run(code, m0));
      }
    }
  }

  lemma TargetKind(q: seq<Item>, wanted: seq<Item>, inUse: map<int, int>)
    requires Shape(q, wanted, inUse)
    ensures forall t :: IsPending(q, t) ==> ArgRegister(inUse, t)
  {
    forall t | IsPending(q, t)
      ensures ArgRegister(inUse, t)
    {
      var i :| 0 <= i < |q| && q[i].arg2 == t;
      assert Requested(wanted, q[i]);
    }
  }

  /** Some move is overtaken for good: it gets the wrong value whenever the item that overtakes it loads another. */
  ghost predicate LosesValue(wanted: seq<Item>, code: seq<Instr>) {
    exists i: nat, j: nat {:trigger Overtakes(wanted, i, j)} :: Overtakes(wanted, i, j) && MoveLost(wanted, code, i, j)
  }

  ghost predicate MoveLost(wanted: seq<Item>, code: seq<Instr>, i: nat, j: nat)
    requires i < |wanted| && j < |wanted|
  {
    forall m0 {:trigger Run(code, m0)} :: Tells(wanted[i], m0) ==> !Holds(wanted[j], m0, Run(code, m0))
  }

  /** Losing a value is a failure for some contents of the registers. */
  lemma LossShows(wanted: seq<Item>, code: seq<Instr>)
    requires LosesValue(wanted, code)
    ensures exists m0 :: !AllHold(wanted, m0, Run(code, m0))
  {
    var i: nat, j: nat :| Overtakes(wanted, i, j) && MoveLost(wanted, code, i, j);
    var m0 := Machine(r => OtherCell(r), 0);
    assert Tells(wanted[i], m0);
    assert !Holds(wanted[j], m0, Run(code, m0));
  }

  /** With the queue empty the code is right or wrong by what the condition says. */
  lemma GoDone(wanted: seq<Item>, inUse: map<int, int>, code: seq<Instr>, i: nat, off: seq<Item>)
    requires Going([], wanted, inUse, code, i, off) && |wanted| < INST_QUEUE_SIZE
    ensures InTime(wanted) ==> forall m0 :: AllHold(wanted, m0, Run(code, m0))
    ensures !InTime(wanted) ==> LosesValue(wanted, code)
    ensures i == |wanted|
  {
    assert Open(0);
    InTimeIff(wanted);
    if RightUpTo(wanted, i) {
      forall m0
        ensures AllHold(wanted, m0, Run(code, m0))
      {
        assert Values([], wanted, m0, Run(code, m0));
        assert forall t :: !IsPending([], t);
      }
    } else {
      var a: nat, b: nat :| Overtakes(wanted, a, b) && MoveAstray([], wanted, inUse, code, a, b);
      forall m0 | Tells(wanted[a], m0)
        ensures !Holds(wanted[b], m0, Run(code, m0))
      {
        assert Astray([], inUse, wanted[b].arg2, m0.regs(wanted[b].arg1), Run(code, m0));
      }
    }
  }

  // ----- the sequencer -----

  /** Whether no queued move reads register r. The scan does not follow the buffer around. */
  method TargetIsNotSource(q: InstQueue<Item>, r: int) returns (b: bool)
    requires q.Valid()
    ensures b == (q.bottom > q.top || !IsSource(q.contents, r))
  {
    assert Open(0);
    var i := q.bottom;
    while i < q.top
      invariant q.bottom <= i && (i <= q.top || (q.bottom > q.top))
      invariant forall j :: q.bottom <= j < i && j < q.top ==> !(q.items[j].op.MovReg? && q.items[j].arg1 == r)
    {
      if q.items[i].op.MovReg? && q.items[i].arg1 == r {
        assert q.contents[i - q.bottom] == q.items[i];
        return false;
      }
      i := i + 1;
    }
    assert !(q.bottom > q.top) ==> forall k :: 0 <= k < |q.contents| ==> q.contents[k] == q.items[q.bottom + k];
    return true;
  }

  /** Whether no queued item loads register r; the same kind of scan. */
  method SourceIsNotTarget(q: InstQueue<Item>, r: int) returns (b: bool)
    requires q.Valid()
    ensures b == (q.bottom > q.top || !IsPending(q.contents, r))
  {
    assert Open(0);
    var i := q.bottom;
    while i < q.top
      invariant q.bottom <= i && (i <= q.top || (q.bottom > q.top))
      invariant forall j :: q.bottom <= j < i && j < q.top ==> q.items[j].arg2 != r
    {
      if q.items[i].arg2 == r {
        assert q.contents[i - q.bottom] == q.items[i];
        return false;
      }
      i := i + 1;
    }
    assert !(q.bottom > q.top) ==> forall k :: 0 <= k < |q.contents| ==> q.contents[k] == q.items[q.bottom + k];
    return true;
  }

  /** Where in the buffer the i-th item to be taken lies. */
  function SlotOf(i: nat): int {
    if i < ROOM then START + i else i - ROOM
  }

  /** In the first pass the queue starts at the next item, and what was saved has taken registers. */
  ghost predicate Placed(bottom: int, inUse: map<int, int>, wanted: seq<Item>, i: nat, taken: nat) {
    forall k {:trigger Open(k)} :: Open(k) ==>
      i <= |wanted| && taken + Saves(wanted, i) <= MAX_REGS - 1
      && (i < |wanted| ==> bottom == SlotOf(i) && |inUse| == taken + Saves(wanted, i))
  }

  lemma PlacedStart(inUse: map<int, int>, wanted: seq<Item>)
    requires |inUse| <= MAX_REGS - 1
    ensures Placed(START, inUse, wanted, 0, |inUse|)
  {
  }

  lemma PlacedNow(bottom: int, inUse: map<int, int>, wanted: seq<Item>, i: nat, taken: nat)
    requires Placed(bottom, inUse, wanted, i, taken)
    ensures i <= |wanted| && taken + Saves(wanted, i) <= MAX_REGS - 1
    ensures i < |wanted| ==> bottom == SlotOf(i) && |inUse| == taken + Saves(wanted, i)
    ensures i < |wanted| ==> Saves(wanted, i) <= Saves(wanted, i + 1) <= Saves(wanted, |wanted|)
  {
    assert Open(0);
    if i < |wanted| {
      SavesGrow(wanted, i, i + 1);
      SavesGrow(wanted, i + 1, |wanted|);
    }
  }

  lemma PlacedNext(bottom: int, inUse: map<int, int>, wanted: seq<Item>, i: nat, taken: nat, bottom': int, inUse': map<int, int>)
    requires Placed(bottom, inUse, wanted, i, taken) && |inUse'| <= MAX_REGS - 1
    requires i < |wanted| ==> bottom' == SlotOf(i + 1) && |inUse'| == |inUse| + if Saved(wanted, i) then 1 else 0
    ensures Placed(bottom', inUse', wanted, NextItem(wanted, i), taken)
  {
    assert Open(0);
  }

  lemma WrapIff(wanted: seq<Item>, i: nat, bottom: int, top: int, left: nat)
    requires i < |wanted| < INST_QUEUE_SIZE && bottom == SlotOf(i + 1) && 0 <= top < INST_QUEUE_SIZE
    requires left == |wanted| - i - 1 + PutOffs(wanted, i)
    requires left == if bottom <= top then top - bottom else top - bottom + INST_QUEUE_SIZE
    ensures bottom > top <==> Misled(wanted, i)
  {
    PutOffsBound(wanted, i);
  }

  /** What the invariant says of the item about to be taken. */
  lemma GoingParts(c: seq<Item>, wanted: seq<Item>, inUse: map<int, int>, code: seq<Instr>, i: nat, off: seq<Item>)
    requires Going(c, wanted, inUse, code, i, off) && c != []
    ensures if i < |wanted| then |c| == |wanted| - i + PutOffs(wanted, i) && c[0] == wanted[i]
            else i == |wanted| && !IsSource(c[1..], c[0].arg2)
    ensures i < |wanted| && !Identity(c[0]) ==> (IsSource(c[1..], c[0].arg2) <==> Blocked(wanted, i))
    ensures i < |wanted| ==> (IsPending(c[1..], c[0].arg1) <==> ToLoad(wanted, i, c[0].arg1))
    ensures c[0].op.MovReg? ==> c[0].arg1 in inUse
  {
    assert Open(0);
    if i < |wanted| { FirstPassScan(c, wanted, i, off); } else { SecondPassScan(c, wanted, off); }
  }

  /** Emits the item x, just removed, and gives up its source if the compiler had introduced it. */
  method Emit(reg: RegStat, x: Item, ghost c: seq<Item>, code0: seq<Instr>, ghost wanted: seq<Item>, ghost i: nat, ghost off: seq<Item>)
    returns (code: seq<Instr>)
    requires reg.Valid() && c != [] && c[0] == x && !Identity(x)
    requires Going(c, wanted, reg.inUse, code0, i, off) && (i < |wanted| ==> !PutOff(wanted, i))
    modifies reg, reg.RegArray
    ensures reg.Valid() && Going(c[1..], wanted, reg.inUse, code, NextItem(wanted, i), NextOff(wanted, i, off))
    ensures reg.inUse == if x.op.MovReg? then AfterRelease(old(reg.inUse), x.arg1) else old(reg.inUse)
  {
    GoEmit(c, wanted, reg.inUse, code0, i, off);
    code := code0 + [Emitted(x)];
    if x.op.MovReg? { reg.Release(x.arg1); }
  }

  /** Saves the source of the move x in a new register and puts the shortened move back. */
  method Save(q: InstQueue<Item>, reg: RegStat, x: Item, ghost c: seq<Item>, code0: seq<Instr>, ghost wanted: seq<Item>, ghost i: nat, ghost off: seq<Item>)
    returns (code: seq<Instr>, overflow: bool, ghost off': seq<Item>)
    requires q.Valid() && reg.Valid() && c == [x] + q.contents && |c| < INST_QUEUE_SIZE
    requires Going(c, wanted, reg.inUse, code0, i, off) && i < |wanted| && PutOff(wanted, i)
    requires x.op.MovReg? && IsPending(q.contents, x.arg1)
    modifies q`top, q`contents, q.items, reg, reg.RegArray
    ensures overflow ==> |old(reg.inUse)| >= MAX_REGS - 1
    ensures !overflow ==> q.Valid() && reg.Valid() && Going(q.contents, wanted, reg.inUse, code, i + 1, off')
    ensures !overflow ==> |reg.inUse| == |old(reg.inUse)| + 1
  {
    ghost var inUse := reg.inUse;
    code, off' := code0, off;
    var r;
    r, overflow := reg.Get(TVAR);
    if !overflow {
      assert c[1..] == q.contents && c[0] == x;
      GoSave(c, wanted, inUse, code0, i, off, r);
      code := code0 + [Instr(MovReg, x.arg1, r)];
      reg.Release(x.arg1);
      var full := q.Push(Item(MovReg, r, x.arg2));
      off' := off + [Item(MovReg, r, x.arg2)];
      assert q.contents == c[1..] + [Item(MovReg, r, c[0].arg2)];
    }
  }

  /** One turn whose target is still a source: the item x was just removed. */
  method DelayOrSave(q: InstQueue<Item>, reg: RegStat, x: Item, ghost c: seq<Item>, code0: seq<Instr>, ghost wanted: seq<Item>, ghost i: nat, ghost off: seq<Item>)
    returns (code: seq<Instr>, overflow: bool, ghost off': seq<Item>)
    requires q.Valid() && reg.Valid() && c == [x] + q.contents && |c| < INST_QUEUE_SIZE
    requires Going(c, wanted, reg.inUse, code0, i, off) && i < |wanted| && PutOff(wanted, i)
    requires q.bottom <= q.top
    modifies q`top, q`contents, q.items, reg, reg.RegArray
    ensures overflow ==> Saved(wanted, i) && |old(reg.inUse)| >= MAX_REGS - 1
    ensures !overflow ==> q.Valid() && reg.Valid() && Going(q.contents, wanted, reg.inUse, code, i + 1, off')
    ensures !overflow ==> |reg.inUse| == |old(reg.inUse)| + if Saved(wanted, i) then 1 else 0
  {
    code, overflow, off' := code0, false, off;
    GoingParts(c, wanted, reg.inUse, code0, i, off);
    assert c[1..] == q.contents && c[0] == x;
    var delay := true;
    if x.op.MovReg? { delay := SourceIsNotTarget(q, x.arg1); }
    if delay {
      GoRotate(c, wanted, reg.inUse, code0, i, off);
      var full := q.Push(x);
      off' := off + [x];
      assert q.contents == c[1..] + [c[0]];
    } else {
      code, overflow, off' := Save(q, reg, x, c, code0, wanted, i, off);
    }
  }

  /** The item x, just removed, is dropped, emitted, put off or saved. */
  method Treat(q: InstQueue<Item>, reg: RegStat, x: Item, ghost c: seq<Item>, code0: seq<Instr>, ghost wanted: seq<Item>, ghost i: nat, ghost off0: seq<Item>)
    returns (code: seq<Instr>, overflow: bool, ghost off: seq<Item>)
    requires q.Valid() && reg.Valid() && c == [x] + q.contents && |c| < INST_QUEUE_SIZE
    requires Going(c, wanted, reg.inUse, code0, i, off0)
    requires i < |wanted| ==> (q.bottom > q.top <==> Misled(wanted, i))
    modifies q`top, q`contents, q.items, reg, reg.RegArray
    ensures overflow ==> i < |wanted| && Saved(wanted, i) && |old(reg.inUse)| >= MAX_REGS - 1
    ensures !overflow ==> q.Valid() && reg.Valid() && Going(q.contents, wanted, reg.inUse, code, NextItem(wanted, i), off)
    ensures !overflow && i < |wanted| ==> |reg.inUse| == |old(reg.inUse)| + if Saved(wanted, i) then 1 else 0
    ensures !overflow && i == |wanted| ==> |q.contents| < |c|
  {
    code, overflow, off := code0, false, NextOff(wanted, i, off0);
    ghost var inUse := reg.inUse;
    GoingParts(c, wanted, inUse, code0, i, off0);
    assert c[1..] == q.contents && c[0] == x;
    if x.op.MovReg? && x.arg1 == x.arg2 {
      GoDrop(c, wanted, inUse, code, i, off0);
    } else {
      var emit := TargetIsNotSource(q, x.arg2);
      if emit {
        FirstSourceKept(c, wanted, inUse, code, i, off0);
        code := Emit(reg, x, c, code, wanted, i, off0);
      } else {
        code, overflow, off := DelayOrSave(q, reg, x, c, code, wanted, i, off0);
      }
    }
  }

  /** One turn of the loop: in the first pass on to the next item, after that a shorter queue. */
  method MoveOne(q: InstQueue<Item>, reg: RegStat, code0: seq<Instr>, ghost wanted: seq<Item>, ghost i0: nat, ghost off0: seq<Item>, ghost taken: nat)
    returns (code: seq<Instr>, overflow: bool, ghost off: seq<Item>)
    requires q.Valid() && reg.Valid() && q.contents != [] && |wanted| < INST_QUEUE_SIZE
    requires Going(q.contents, wanted, reg.inUse, code0, i0, off0) && Placed(q.bottom, reg.inUse, wanted, i0, taken)
    modifies q`top, q`bottom, q`contents, q.items, reg, reg.RegArray
    ensures overflow ==> taken + Saves(wanted, |wanted|) > MAX_REGS - 1
    ensures !overflow ==> q.Valid() && reg.Valid() && Going(q.contents, wanted, reg.inUse, code, NextItem(wanted, i0), off)
    ensures !overflow ==> Placed(q.bottom, reg.inUse, wanted, NextItem(wanted, i0), taken)
    ensures !overflow && i0 >= |wanted| ==> |q.contents| < |old(q.contents)|
  {
    ghost var c, inUse, bottom := q.contents, reg.inUse, q.bottom;
    GoingParts(c, wanted, inUse, code0, i0, off0);
    PlacedNow(bottom, inUse, wanted, i0, taken);
    q.Fits();
    var x := q.Rem();
    assert c == [x] + q.contents;
    q.Fits();
    if i0 < |wanted| { WrapIff(wanted, i0, q.bottom, q.top, |q.contents|); }
    code, overflow, off := Treat(q, reg, x, c, code0, wanted, i0, off0);
    if !overflow {
      reg.InUseBound();
      PlacedNext(bottom, inUse, wanted, i0, taken, q.bottom, reg.inUse);
    }
  }

  /** In the first pass sources are the clause's own registers, which are not given up. */
  lemma FirstSourceKept(c: seq<Item>, wanted: seq<Item>, inUse: map<int, int>, code: seq<Instr>, i: nat, off: seq<Item>)
    requires Going(c, wanted, inUse, code, i, off) && c != []
    ensures i < |wanted| && c[0].op.MovReg? ==> AfterRelease(inUse, c[0].arg1) == inUse
  {
    assert Open(0);
    assert i < |wanted| ==> c[0] == wanted[i];
  }

  /**
   Empties the queue into code. Registers run out exactly if saving takes more than there
   are; otherwise the code loads every target as queued, whatever the registers held,
   exactly if the items are in time.
   */
  method GenMvs(q: InstQueue<Item>, reg: RegStat, ghost wanted: seq<Item>) returns (code: seq<Instr>, overflow: bool)
    requires q.Valid() && reg.Valid() && q.contents == wanted && q.bottom == START
    requires WellQueued(wanted, reg.inUse)
    modifies q`top, q`bottom, q`contents, q.items, reg, reg.RegArray
    ensures overflow <==> |old(reg.inUse)| + Saves(wanted, |wanted|) > MAX_REGS - 1
    ensures !overflow ==> q.Valid() && q.contents == []
    ensures !overflow ==> (InTime(wanted) <==> forall m0 :: AllHold(wanted, m0, Run(code, m0)))
    ensures !overflow && !InTime(wanted) ==> LosesValue(wanted, code)
  {
    code, overflow := [], false;
    ghost var i: nat, off: seq<Item>, taken := 0, [], |reg.inUse|;
    GoStart(wanted, reg.inUse);
    q.Fits();
    reg.InUseBound();
    PlacedStart(reg.inUse, wanted);
    var empty := q.Empty();
    while !empty
      invariant empty <==> q.contents == []
      invariant q.Valid() && reg.Valid()
      invariant Going(q.contents, wanted, reg.inUse, code, i, off) && Placed(q.bottom, reg.inUse, wanted, i, taken)
      decreases if i < |wanted| then |wanted| - i else 0, |q.contents|
    {
      code, overflow, off := MoveOne(q, reg, code, wanted, i, off, taken);
      if overflow { return; }
      i := NextItem(wanted, i);
      empty := q.Empty();
    }
    GoDone(wanted, reg.inUse, code, i, off);
    if !InTime(wanted) { LossShows(wanted, code); }
    PlacedNow(q.bottom, reg.inUse, wanted, i, taken);
  }

  // ----- examples -----

  /** Queues the items of a literal and sequences them, as for a clause body. */
  method LoadAll(reg: RegStat, wanted: seq<Item>) returns (code: seq<Instr>, overflow: bool)
    requires reg.Valid() && WellQueued(wanted, reg.inUse) && |wanted| < INST_QUEUE_SIZE
    modifies reg, reg.RegArray
    ensures overflow <==> |old(reg.inUse)| + Saves(wanted, |wanted|) > MAX_REGS - 1
    ensures !overflow ==> (InTime(wanted) <==> forall m0 :: AllHold(wanted, m0, Run(code, m0)))
  {
    var q := new InstQueue<Item>();
    for i := 0 to |wanted|
      invariant fresh(q) && fresh(q.items) && q.Valid() && q.contents == wanted[..i] && q.bottom == START
      invariant unchanged(reg) && unchanged(reg.RegArray)
    {
      var full := q.Push(wanted[i]);
      assert wanted[..i + 1] == wanted[..i] + [wanted[i]];
    }
    assert wanted[..|wanted|] == wanted;
    code, overflow := GenMvs(q, reg, wanted);
  }

  /** A constant for register 1, and for each of the next n what the one before it holds. */
  function ChainOfMoves(n: nat): (s: seq<Item>)
    ensures |s| == n + 1 && s[0] == Item(PutNil, 0, 1) && forall i :: 0 < i <= n ==> s[i] == Item(MovReg, i, i + 1)
  {
    seq(n + 1, i => if i == 0 then Item(PutNil, 0, 1) else Item(MovReg, i, i + 1))
  }

  lemma {:induction false} ChainBlocked(n: nat, k: nat)
    requires k <= n
    ensures BlockedCount(ChainOfMoves(n), k) == k
  {
    if k > 0 {
      ChainBlocked(n, k - 1);
      assert Overtakes(ChainOfMoves(n), k - 1, k);
    }
  }

  /** The bound of 123 items is tight: a chain is in time exactly up to that length. */
  lemma ChainInTimeIff(n: nat)
    requires n + 1 < INST_QUEUE_SIZE
    ensures InTime(ChainOfMoves(n)) <==> |ChainOfMoves(n)| <= ROOM / 2
  {
    var w := ChainOfMoves(n);
    ChainBlocked(n, n);
    assert !Blocked(w, n);
    if n + 1 >= ROOM {
      assert Overtakes(w, 0, 1);
      assert Blocked(w, 0);
    }
  }

  lemma ChainWellQueued(n: nat, inUse: map<int, int>)
    requires forall r :: 0 <= r <= n + 1 ==> ArgRegister(inUse, r)
    ensures WellQueued(ChainOfMoves(n), inUse)
  {
    var w := ChainOfMoves(n);
    assert forall i :: 0 < i <= n ==> ArgRegister(inUse, w[i].arg1);
  }

  /** The code for a chain of 124 items is wrong for some contents of the registers. */
  method ChainLosesValue() returns (code: seq<Instr>)
    ensures exists m0 :: !AllHold(ChainOfMoves(123), m0, Run(code, m0))
  {
    var reg := new RegStat(124);
    var overflow;
    var wanted := ChainOfMoves(123);
    ChainWellQueued(123, reg.inUse);
    SavesGrow(wanted, 0, 124);
    ChainInTimeIff(123);
    code, overflow := LoadAll(reg, wanted);
  }

  /** A constant for register 1, whose contents register 2 is to get, and constants for all up to 246. */
  function FullQueue(): (s: seq<Item>)
    ensures |s| == ROOM && s[0] == Item(PutCon, 7, 1) && s[1] == Item(MovReg, 1, 2)
    ensures forall i :: 0 <= i < ROOM ==> s[i].arg2 == i + 1 && (s[i].op.MovReg? <==> i == 1) && !s[i].op.PutTVar?
  {
    seq(ROOM, i => if i == 1 then Item(MovReg, 1, 2) else Item(PutCon, 7, i + 1))
  }

  /** A queue that starts full goes wrong at its first item. */
  method FullQueueLosesValue() returns (code: seq<Instr>)
    ensures exists m0 :: !AllHold(FullQueue(), m0, Run(code, m0))
  {
    var reg := new RegStat(ROOM);
    var overflow;
    var w := FullQueue();
    assert Overtakes(w, 0, 1);
    assert Blocked(w, 0);
    assert forall i :: 0 <= i < ROOM ==> !Saved(w, i);
    NothingSaved(w, ROOM);
    code, overflow := LoadAll(reg, w);
  }
}
