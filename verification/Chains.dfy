/**
 Chains of clauses and of index blocks. Every link has three words, and the
 instruction in the middle one encodes the position: alone, first, in the middle or
 last. Chains of index blocks and of clauses differ only in the codes for the first
 two. The previous word of the first link holds the head's address, the next word of
 the last link the address of the block or predicate the chain belongs to.
 */
module Chains {
  datatype Addr =
    | PredHdr
    | SobHdr(sob: nat)
    | SobLink(sob: nat)
    | AllLink(clause: nat)
    | IndLink(clause: nat)
    | Bucket(sob: nat, slot: nat)
    | DynFail

  datatype Op = Fail | Noop | DynNoop | Try | DynTry | DynRetry | DynTrust

  datatype Cell = Cell(op: Op, prev: Addr, next: Addr)

  type Cells = map<Addr, Cell>

  // ----- the encoding -----

  function Alone(sob: bool): Op {
    if sob then Noop else DynNoop
  }

  function Leading(sob: bool): Op {
    if sob then Try else DynTry
  }

  /** The link at position i of chain s. */
  function LinkAt(sob: bool, s: seq<Addr>, head: Addr, end: Addr, i: nat): Cell
    requires i < |s|
  {
    Cell(if |s| == 1 then Alone(sob) else if i == 0 then Leading(sob) else if i < |s| - 1 then DynRetry else DynTrust,
         if i == 0 then head else s[i - 1],
         if i == |s| - 1 then end else s[i + 1])
  }

  ghost predicate Distinct(s: seq<Addr>) {
    forall i, j :: 0 <= i < j < |s| ==> s[i] != s[j]
  }

  ghost predicate Linked(cells: Cells, sob: bool, s: seq<Addr>, head: Addr, end: Addr, i: nat)
    requires i < |s|
  {
    s[i] in cells && cells[s[i]] == LinkAt(sob, s, head, end, i)
  }

  ghost predicate Chain(cells: Cells, sob: bool, s: seq<Addr>, head: Addr, end: Addr) {
    Distinct(s) && forall i {:trigger Linked(cells, sob, s, head, end, i)} :: 0 <= i < |s| ==> Linked(cells, sob, s, head, end, i)
  }

  /** Only links of s differ. */
  ghost predicate OnlyChanged(cells: Cells, cells': Cells, s: seq<Addr>) {
    cells'.Keys == cells.Keys && forall a :: a in cells && a !in s ==> cells'[a] == cells[a]
  }

  ghost function Without(s: seq<Addr>, i: nat): seq<Addr>
    requires i < |s|
  {
    s[..i] + s[i + 1..]
  }

  // ----- adding -----

  /** Puts x before the first link of a chain. */
  method PrefixToChain(cells: Cells, sob: bool, first: Addr, x: Addr, ghost s: seq<Addr>, ghost head: Addr, ghost end: Addr)
    returns (cells': Cells)
    requires Chain(cells, sob, s, head, end) && s != [] && first == s[0] && x in cells && x !in s
    ensures Chain(cells', sob, [x] + s, head, end) && OnlyChanged(cells, cells', [x] + s)
  {
    assert Linked(cells, sob, s, head, end, 0);
    cells' := cells[x := Cell(if sob then Try else DynTry, cells[x].prev, first)];
    if cells'[first].op == DynNoop || cells'[first].op == Noop {
      cells' := cells'[first := cells'[first].(op := DynTrust)];
    } else if cells'[first].op == DynTry || cells'[first].op == Try {
      cells' := cells'[first := cells'[first].(op := DynRetry)];
    }
    cells' := cells'[x := cells'[x].(prev := cells'[first].prev)];
    cells' := cells'[first := cells'[first].(prev := x)];
    forall i | 0 <= i < |[x] + s|
      ensures Linked(cells', sob, [x] + s, head, end, i)
    {
      if i > 0 {
        assert ([x] + s)[i] == s[i - 1];
        assert Linked(cells, sob, s, head, end, i - 1);
        if i > 1 { assert s[i - 1] != s[0]; }
      }
    }
  }

  /** Puts x after the last link of a chain. */
  method AppendToChain(cells: Cells, sob: bool, last: Addr, x: Addr, ghost s: seq<Addr>, ghost head: Addr, ghost end: Addr)
    returns (cells': Cells)
    requires Chain(cells, sob, s, head, end) && s != [] && last == s[|s| - 1] && x in cells && x !in s
    ensures Chain(cells', sob, s + [x], head, end) && OnlyChanged(cells, cells', s + [x])
  {
    assert Linked(cells, sob, s, head, end, |s| - 1);
    cells' := cells[x := Cell(DynTrust, last, cells[last].next)];
    if cells'[last].op == DynNoop {
      cells' := cells'[last := cells'[last].(op := DynTry, next := x)];
    } else if cells'[last].op == Noop {
      cells' := cells'[last := cells'[last].(op := Try, next := x)];
    } else if cells'[last].op == DynTrust {
      cells' := cells'[last := cells'[last].(op := DynRetry, next := x)];
    }
    forall i | 0 <= i < |s + [x]|
      ensures Linked(cells', sob, s + [x], head, end, i)
    {
      if i < |s| {
        assert Linked(cells, sob, s, head, end, i);
        if i < |s| - 1 { assert s[i] != s[|s| - 1]; }
      }
    }
  }

  // ----- deleting -----

  /** Unlinks x: its neighbours are joined, and a neighbour whose position changes gets a new code. */
  method DeleteFromChain(cells: Cells, x: Addr, ghost sob: bool, ghost s: seq<Addr>, ghost head: Addr, ghost end: Addr, ghost i: nat)
    returns (cells': Cells)
    requires Chain(cells, sob, s, head, end) && i < |s| && s[i] == x
    ensures Chain(cells', sob, Without(s, i), head, end) && OnlyChanged(cells, cells', Without(s, i))
    ensures x in cells && x in cells' && cells'[x] == cells[x]
  {
    cells' := cells;
    assert Linked(cells, sob, s, head, end, i);
    if i > 0 { assert Linked(cells, sob, s, head, end, i - 1) && s[i - 1] != s[i]; }
    if i < |s| - 1 { assert Linked(cells, sob, s, head, end, i + 1) && s[i] != s[i + 1]; }
    if 0 < i < |s| - 1 { assert s[i - 1] != s[i + 1]; }
    var prev, next := cells[x].prev, cells[x].next;
    match cells[x].op {
    case Try =>
      cells' := cells'[next := cells'[next].(prev := prev)];
      cells' := cells'[next := cells'[next].(op := if cells'[next].op == DynRetry then Try else Noop)];
    case DynTry =>
      cells' := cells'[next := cells'[next].(prev := prev)];
      cells' := cells'[next := cells'[next].(op := if cells'[next].op == DynRetry then DynTry else DynNoop)];
    case DynRetry =>
      cells' := cells'[next := cells'[next].(prev := prev)];
      cells' := cells'[prev := cells'[prev].(next := next)];
    case DynTrust =>
      cells' := cells'[prev := cells'[prev].(next := next)];
      cells' := cells'[prev := cells'[prev].(op :=
        if cells'[prev].op == DynRetry then DynTrust else if cells'[prev].op == Try then Noop else DynNoop)];
    case _ =>
    }
    DeletedLinks(cells, sob, s, head, end, i, cells');
  }

  lemma WithoutAt(s: seq<Addr>, i: nat)
    requires Distinct(s) && i < |s|
    ensures var t := Without(s, i);
      && |t| == |s| - 1 && Distinct(t) && s[i] !in t
      && forall k :: 0 <= k < |t| ==> t[k] == s[if k < i then k else k + 1]
  {
    var t := Without(s, i);
    forall k, l | 0 <= k < l < |t|
      ensures t[k] != t[l]
    {
      assert t[k] == s[if k < i then k else k + 1] && t[l] == s[if l < i then l else l + 1];
    }
  }

  /** The links after a deletion, from what the code did to the neighbours. */
  lemma DeletedLinks(cells: Cells, sob: bool, s: seq<Addr>, head: Addr, end: Addr, i: nat, cells': Cells)
    requires Chain(cells, sob, s, head, end) && i < |s| && cells'.Keys == cells.Keys
    requires forall a :: a in cells && (i == 0 || a != s[i - 1]) && (i == |s| - 1 || a != s[i + 1]) ==> cells'[a] == cells[a]
    requires i > 0 ==> Linked(cells', sob, Without(s, i), head, end, i - 1)
    requires i < |s| - 1 ==> Linked(cells', sob, Without(s, i), head, end, i)
    ensures Chain(cells', sob, Without(s, i), head, end) && OnlyChanged(cells, cells', Without(s, i))
    ensures s[i] in cells && cells'[s[i]] == cells[s[i]]
  {
    var t := Without(s, i);
    WithoutAt(s, i);
    forall k | 0 <= k < |t|
      ensures Linked(cells', sob, t, head, end, k)
    {
      DeletedLink(cells, sob, s, head, end, i, cells', k);
    }
    if i > 0 { assert t[i - 1] == s[i - 1]; }
    if i < |s| - 1 { assert t[i] == s[i + 1]; }
    assert Linked(cells, sob, s, head, end, i);
  }

  lemma DeletedLink(cells: Cells, sob: bool, s: seq<Addr>, head: Addr, end: Addr, i: nat, cells': Cells, k: nat)
    requires Chain(cells, sob, s, head, end) && i < |s| && cells'.Keys == cells.Keys && k < |s| - 1
    requires forall a :: a in cells && (i == 0 || a != s[i - 1]) && (i == |s| - 1 || a != s[i + 1]) ==> cells'[a] == cells[a]
    requires i > 0 ==> Linked(cells', sob, Without(s, i), head, end, i - 1)
    requires i < |s| - 1 ==> Linked(cells', sob, Without(s, i), head, end, i)
    ensures Linked(cells', sob, Without(s, i), head, end, k)
  {
    var j := if k < i then k else k + 1;
    WithoutAt(s, i);
    if k != i - 1 && k != i {
      assert Linked(cells, sob, s, head, end, j);
      if i > 0 { assert s[if j < i - 1 then j else i - 1] != s[if j < i - 1 then i - 1 else j]; }
      if i < |s| - 1 { assert s[if j < i + 1 then j else i + 1] != s[if j < i + 1 then i + 1 else j]; }
    }
  }
}
