/**
 The clause compiler's register allocator: one array holds both the kind of each
 register in use and, threaded through the released ones, a free list that ends at
 the lowest register never handed out.
 */
module RegAlloc {
  import opened Hiding

  const MAX_REGS := 257

  /** A variable of the clause, a register introduced by the compiler, an argument register. */
  const RVAR := -1
  const TVAR := -2
  const NVAR := -3

  /** Every register an instruction can name is in use. */
  ghost predicate AllTaken(inUse: map<int, int>) {
    forall r :: 0 <= r < MAX_REGS - 1 ==> r in inUse
  }

  lemma {:induction false} AllTakenCount(inUse: map<int, int>, n: nat)
    requires forall r :: 0 <= r < n ==> r in inUse
    ensures |inUse| >= n
  {
    if n > 0 {
      var less := inUse - {n - 1};
      assert inUse.Keys == less.Keys + {n - 1};
      AllTakenCount(less, n - 1);
    }
  }

  ghost function Below(n: nat): (s: set<int>)
    ensures |s| == n && forall r :: r in s <==> 0 <= r < n
  {
    if n == 0 then {} else Below(n - 1) + {n - 1}
  }

  lemma SizeAtMost(a: set<int>, b: set<int>)
    requires a <= b
    ensures |a| <= |b|
  {
    assert b == a + (b - a);
  }

  lemma OneMore(inUse: map<int, int>, r: int, kind: int)
    requires r !in inUse
    ensures |inUse[r := kind]| == |inUse| + 1
  {
    assert inUse[r := kind].Keys == inUse.Keys + {r};
  }

  lemma ListEndsAtZero(a: seq<int>, free: seq<int>)
    requires |free| > 0 && forall i :: 0 <= i < |free| ==> 0 < free[i] < |a|
    requires (forall i :: 0 <= i < |free| - 1 ==> a[free[i]] == free[i + 1]) && a[free[|free| - 1]] == 0
    ensures a[free[0]] == 0 <==> |free| == 1
  {
    if |free| > 1 { assert a[free[0]] == free[0 + 1]; }
  }

  class RegStat {
    /** The number of argument registers. */
    const size: nat
    const RegArray: array<int>
    var FreeReg: int
    /** The free list, from FreeReg to the lowest untouched register. */
    ghost var free: seq<int>
    /** The registers handed out or reserved, with their kinds. */
    ghost var inUse: map<int, int>

    ghost predicate Valid()
      reads this, RegArray
    {
      forall k {:trigger Open(k)} :: Open(k) ==> Wellformed()
    }

    ghost predicate Wellformed()
      reads this, RegArray
    {
      && RegArray.Length == MAX_REGS
      && |free| > 0 && free[0] == FreeReg
      && (forall i :: 0 <= i < |free| ==> 0 < free[i] <= free[|free| - 1] < MAX_REGS)
      && (forall i, j :: 0 <= i < j < |free| ==> free[i] != free[j])
      && (forall i :: 0 <= i < |free| - 1 ==> RegArray[free[i]] == free[i + 1])
      && RegArray[free[|free| - 1]] == 0
      && (forall r :: r in inUse <==> 0 <= r < free[|free| - 1] && r !in free)
      && (forall r :: r in inUse ==> inUse[r] == RegArray[r] && inUse[r] in {RVAR, TVAR, NVAR})
      && (forall r :: 0 <= r <= size ==> r in inUse && inUse[r] == NVAR)
    }

    constructor (size: nat)
      requires size + 1 < MAX_REGS
      ensures Valid() && fresh(RegArray) && this.size == size
      ensures |inUse| == size + 1
      ensures forall r :: r in inUse <==> 0 <= r <= size
      ensures forall r :: r in inUse ==> inUse[r] == NVAR
    {
      this.size := size;
      RegArray := new int[MAX_REGS];
      FreeReg := size + 1;
      free, inUse := [size + 1], map[];
      new;
      var i := 0;
      while i < FreeReg
        invariant 0 <= i <= FreeReg == size + 1 && free == [size + 1]
        invariant |inUse| == i
        invariant forall r :: r in inUse <==> 0 <= r < i
        invariant forall r :: r in inUse ==> inUse[r] == RegArray[r] == NVAR
      {
        RegArray[i] := NVAR;
        OneMore(inUse, i, NVAR);
        inUse := inUse[i := NVAR];
        i := i + 1;
      }
      RegArray[FreeReg] := 0;
    }

    /** Argument registers are never given up. */
    lemma ArgumentsStay(r: int)
      requires Valid() && 0 <= r <= size
      ensures r in inUse && inUse[r] == NVAR
    {
      assert Open(0);
    }

    /** There are 256 registers. */
    lemma InUseBound()
      requires Valid()
      ensures |inUse| <= MAX_REGS - 1
    {
      assert Open(0);
      SizeAtMost(inUse.Keys, Below(MAX_REGS - 1));
      assert |inUse.Keys| == |inUse|;
    }

    /** The free list holds only the lowest untouched register: take it and move on. */
    method TakeUntouched(kind: int) returns (r: int, overflow: bool)
      requires Wellformed() && kind in {RVAR, TVAR, NVAR} && RegArray[FreeReg] == 0
      modifies this, RegArray
      ensures r == old(FreeReg) && r !in old(inUse) && 0 < r && (!overflow ==> r < MAX_REGS - 1)
      ensures overflow <==> AllTaken(old(inUse))
      ensures !overflow ==> Wellformed() && inUse == old(inUse)[r := kind]
    {
      r := FreeReg;
      ListEndsAtZero(RegArray[..], free);
      assert r !in inUse && 0 < r;
      FreeReg := FreeReg + 1;
      overflow := FreeReg >= MAX_REGS;
      if !overflow {
        RegArray[FreeReg] := 0;
        free := [FreeReg];
        RegArray[r] := kind;
        inUse := inUse[r := kind];
      }
    }

    /** The free list starts with a released register: unlink it. */
    method TakeReleased(kind: int) returns (r: int)
      requires Wellformed() && kind in {RVAR, TVAR, NVAR} && RegArray[FreeReg] != 0
      modifies this, RegArray
      ensures r == old(FreeReg) && r !in old(inUse) && 0 < r < MAX_REGS - 1
      ensures Wellformed() && inUse == old(inUse)[r := kind]
    {
      r := FreeReg;
      assert |free| > 1 && RegArray[free[0]] == free[0 + 1];
      assert r !in inUse && 0 < r;
      FreeReg := RegArray[FreeReg];
      free := free[1..];
      RegArray[r] := kind;
      inUse := inUse[r := kind];
    }

    /** Hands out a register not in use; fails exactly when all 256 are. */
    method Get(kind: int) returns (r: int, overflow: bool)
      requires Valid() && kind in {RVAR, TVAR, NVAR}
      modifies this, RegArray
      ensures overflow <==> AllTaken(old(inUse))
      ensures overflow ==> |old(inUse)| >= MAX_REGS - 1
      ensures !overflow ==> Valid() && r !in old(inUse) && 0 < r < MAX_REGS - 1 && inUse == old(inUse)[r := kind]
      ensures !overflow ==> |inUse| == |old(inUse)| + 1
    {
      assert Open(0);
      ghost var was := inUse;
      if RegArray[FreeReg] == 0 {
        r, overflow := TakeUntouched(kind);
      } else {
        r := TakeReleased(kind);
        overflow := false;
      }
      if overflow { AllTakenCount(was, MAX_REGS - 1); } else { OneMore(was, r, kind); }
    }

    /** Returns a compiler-introduced register to the free list; other kinds are kept. */
    method Release(r: int)
      requires Valid() && r in inUse
      modifies this, RegArray
      ensures Valid() && inUse == if old(inUse)[r] == TVAR then old(inUse) - {r} else old(inUse)
      ensures |inUse| <= |old(inUse)|
    {
      assert Open(0);
      assert (inUse - {r}).Keys <= inUse.Keys;
      if RegArray[r] == TVAR {
        RegArray[r] := FreeReg;
        FreeReg := r;
        free := [r] + free;
        inUse := inUse - {r};
      }
    }
  }
}
