/**
 The edges of the call graph, kept twice: in the hash table of the call that is
 depended on, and in the list of the call that depends. Both sides, the per-call
 counts and the global counter change together.
 */
module CallEdges {
  import opened Hiding

  /** Call numbers. */
  type Id = int

  type Table = map<Id, seq<Id>>

  ghost predicate Distinct(s: seq<Id>) {
    forall i, j :: 0 <= i < j < |s| ==> s[i] != s[j]
  }

  function Minus(s: seq<Id>, x: Id): seq<Id> {
    if s == [] then [] else if s[0] == x then s[1..] else [s[0]] + Minus(s[1..], x)
  }

  lemma {:induction false} MinusIn(s: seq<Id>, x: Id)
    requires Distinct(s)
    ensures Distinct(Minus(s, x)) && forall y :: y in Minus(s, x) <==> y in s && y != x
    ensures |Minus(s, x)| == if x in s then |s| - 1 else |s|
  {
    if s != [] {
      var rest := s[1..];
      assert s == [s[0]] + rest && s[0] !in rest;
      assert Distinct(rest) by {
        forall i, j | 0 <= i < j < |rest|
          ensures rest[i] != rest[j]
        {
          assert s[i + 1] != s[j + 1];
        }
      }
      MinusIn(rest, x);
      if s[0] != x { ConsDistinct(s[0], Minus(rest, x)); }
    }
  }

  lemma ConsDistinct(v: Id, s: seq<Id>)
    requires Distinct(s) && v !in s
    ensures Distinct([v] + s)
  {
    var t := [v] + s;
    forall i, j | 0 <= i < j < |t|
      ensures t[i] != t[j]
    {
      assert t[j] == s[j - 1];
    }
  }

  lemma SnocDistinct(s: seq<Id>, v: Id)
    requires Distinct(s) && v !in s
    ensures Distinct(s + [v])
  {
  }

  ghost predicate AllDistinct(t: Table) {
    forall a {:trigger Distinct(t[a])} :: a in t ==> Distinct(t[a])
  }

  ghost predicate Out(out: Table, a: Id, b: Id) {
    a in out && b in out[a]
  }

  /** b is in a's table exactly if a is on b's list, and both are calls of the graph. */
  ghost predicate Dual(out: Table, inn: Table) {
    forall k {:trigger Open(k)} :: Open(k) ==> DualOpened(out, inn)
  }

  ghost predicate DualOpened(out: Table, inn: Table) {
    && out.Keys == inn.Keys && AllDistinct(out) && AllDistinct(inn)
    && forall a, b {:trigger Out(out, a, b)} {:trigger Out(inn, b, a)} :: Out(out, a, b) <==> Out(inn, b, a)
  }

  /** The edges as pairs. */
  ghost predicate EdgesAre(out: Table, edges: set<(Id, Id)>) {
    forall k {:trigger Open(k)} :: Open(k) ==> forall e: (Id, Id) {:trigger e in edges} :: e in edges <==> Out(out, e.0, e.1)
  }

  /** Every count is the size of the table. */
  ghost predicate Counted(out: Table, outcount: map<Id, int>) {
    forall k {:trigger Open(k)} :: Open(k) ==>
      outcount.Keys == out.Keys && forall a {:trigger outcount[a]} :: a in out ==> outcount[a] == |out[a]|
  }

  /** s is t with x taken out of the lists of those in l, x itself excepted. */
  ghost predicate Stripped(t: Table, s: Table, l: seq<Id>, x: Id) {
    forall k {:trigger Open(k)} :: Open(k) ==>
      s.Keys == t.Keys && forall a {:trigger s[a]} :: a in t ==> s[a] == if a != x && a in l then Minus(t[a], x) else t[a]
  }

  lemma StrippedNone(t: Table, x: Id)
    ensures Stripped(t, t, [], x)
  {
  }

  lemma StrippedNext(t: Table, s: Table, l: seq<Id>, k: nat, x: Id)
    requires Distinct(l) && k < |l| && l[k] in t && Stripped(t, s, l[..k], x)
    ensures s.Keys == t.Keys && (l[k] != x ==> s[l[k]] == t[l[k]])
    ensures l[k] == x ==> Stripped(t, s, l[..k + 1], x)
    ensures l[k] != x ==> Stripped(t, s[l[k] := Minus(s[l[k]], x)], l[..k + 1], x)
  {
    assert Open(0);
    NotBefore(l, k);
    assert l[..k + 1] == l[..k] + [l[k]];
  }

  lemma EdgeGone(out: Table, edges: set<(Id, Id)>, a: Id, b: Id)
    requires EdgesAre(out, edges) && a in out && b in out[a] && Distinct(out[a])
    ensures EdgesAre(out[a := Minus(out[a], b)], edges - {(a, b)}) && |edges - {(a, b)}| == |edges| - 1
  {
    assert Open(0);
    MinusIn(out[a], b);
    var out' := out[a := Minus(out[a], b)];
    assert Out(out, a, b);
    assert (a, b) in edges;
    forall e: (Id, Id)
      ensures e in edges - {(a, b)} <==> Out(out', e.0, e.1)
    {
      assert Out(out', e.0, e.1) <==> Out(out, e.0, e.1) && e != (a, b);
    }
  }

  lemma EdgeAdded(out: Table, edges: set<(Id, Id)>, a: Id, b: Id)
    requires EdgesAre(out, edges) && a in out && b !in out[a]
    ensures EdgesAre(out[a := out[a] + [b]], edges + {(a, b)}) && |edges + {(a, b)}| == |edges| + 1
  {
    assert Open(0);
    var out' := out[a := out[a] + [b]];
    assert !Out(out, a, b);
    assert (a, b) !in edges;
    forall e: (Id, Id)
      ensures e in edges + {(a, b)} <==> Out(out', e.0, e.1)
    {
      assert Out(out', e.0, e.1) <==> Out(out, e.0, e.1) || e == (a, b);
    }
  }

  /** A call's own edges are as many as its table holds. */
  lemma {:induction false} TableGone(out: Table, edges: set<(Id, Id)>, v: Id) returns (rest: set<(Id, Id)>)
    requires EdgesAre(out, edges) && v in out && Distinct(out[v])
    ensures EdgesAre(out - {v}, rest) && |rest| == |edges| - |out[v]|
    decreases |out[v]|
  {
    if out[v] == [] {
      rest := edges;
      assert Open(0);
      forall e: (Id, Id)
        ensures e in rest <==> Out(out - {v}, e.0, e.1)
      {
        assert Out(out - {v}, e.0, e.1) <==> Out(out, e.0, e.1);
      }
    } else {
      var b := out[v][0];
      var out' := out[v := Minus(out[v], b)];
      EdgeGone(out, edges, v, b);
      MinusIn(out[v], b);
      rest := TableGone(out', edges - {(v, b)}, v);
      assert out' - {v} == out - {v};
    }
  }

  lemma EdgesUnique(out: Table, a: set<(Id, Id)>, b: set<(Id, Id)>)
    requires EdgesAre(out, a) && EdgesAre(out, b)
    ensures a == b
  {
    assert Open(0);
  }

  /** All that is kept of the call graph agrees. */
  ghost predicate Sound(out: Table, inn: Table, outcount: map<Id, int>, edges: set<(Id, Id)>, edgeCount: int, nodeCount: int) {
    forall k {:trigger Ajar(k)} :: Ajar(k) ==>
      Dual(out, inn) && Counted(out, outcount) && EdgesAre(out, edges) && edgeCount == |edges| && nodeCount == |out|
  }

  class CallGraph {
    /** For each call its table of outgoing edges, in the order of iteration. */
    var out: Table
    /** For each call the sources of its incoming edges. */
    var inn: Table
    var outcount: map<Id, int>
    var edgeCount: int
    var nodeCount: int
    ghost var edges: set<(Id, Id)>

    ghost predicate Valid()
      reads this
    {
      Sound(out, inn, outcount, edges, edgeCount, nodeCount)
    }

    constructor ()
      ensures Valid() && out == map[] && edges == {}
    {
      out, inn, outcount, edgeCount, nodeCount, edges := map[], map[], map[], 0, 0, {};
    }

    method AddCallNode(v: Id)
      requires Valid() && v !in out
      modifies this
      ensures Valid() && out.Keys == old(out.Keys) + {v} && edges == old(edges)
    {
      CallAdded(out, inn, outcount, edges, edgeCount, nodeCount, v);
      out, inn, outcount := out[v := []], inn[v := []], outcount[v := 0];
      nodeCount := nodeCount + 1;
    }

    /** Tables, lists and counts change together. */
    method Put(out': Table, inn': Table, outcount': map<Id, int>, edgeCount': int, ghost edges': set<(Id, Id)>)
      modifies this`out, this`inn, this`outcount, this`edgeCount, this`edges
      ensures out == out' && inn == inn' && outcount == outcount' && edgeCount == edgeCount' && edges == edges'
    {
      out, inn, outcount, edgeCount, edges := out', inn', outcount', edgeCount', edges';
    }

    /** Adds an edge unless the table has it already. */
    method AddCallEdge(a: Id, b: Id)
      requires Valid() && a in out && b in out
      modifies this
      ensures Valid() && out.Keys == old(out.Keys) && edges == old(edges) + {(a, b)}
    {
      if b !in out[a] {
        NewEdge(out, inn, outcount, edges, edgeCount, nodeCount, a, b);
        var out', inn' := out[a := out[a] + [b]], inn[b := [a] + inn[b]];
        Put(out', inn', outcount[a := outcount[a] + 1], edgeCount + 1, edges + {(a, b)});
      } else {
        EdgeThere(out, inn, outcount, edges, edgeCount, nodeCount, a, b);
        edges := edges + {(a, b)};
      }
    }

    /** Takes v off the lists of the other calls in its table; the table itself is left behind. */
    method DeleteOutEdges(v: Id)
      requires v in out && Distinct(out[v]) && forall k :: 0 <= k < |out[v]| ==> out[v][k] in inn
      modifies this`inn, this`outcount, this`edgeCount
      ensures Stripped(old(inn), inn, out[v], v)
      ensures outcount == old(outcount)[v := 0] && edgeCount == old(edgeCount) - |out[v]|
    {
      var t := out[v];
      var k := 0;
      StrippedNone(inn, v);
      while k < |t|
        invariant 0 <= k <= |t| && edgeCount == old(edgeCount) - k && outcount == old(outcount)
        invariant Stripped(old(inn), inn, t[..k], v)
      {
        var b := t[k];
        StrippedNext(old(inn), inn, t, k, v);
        if b != v { inn := inn[b := Minus(inn[b], v)]; }
        edgeCount := edgeCount - 1;
        k := k + 1;
      }
      assert t[..k] == t;
      outcount := outcount[v := 0];
    }

    /** Takes v out of the tables of the other calls on its list; the list itself is left behind. */
    method DeleteInEdges(v: Id)
      requires v in inn && Distinct(inn[v]) && forall k :: 0 <= k < |inn[v]| ==> InTable(out, outcount, inn[v][k], v)
      requires EdgesAre(out, edges)
      modifies this`out, this`inn, this`outcount, this`edgeCount, this`edges
      ensures inn == old(inn) && Stripped(old(out), out, inn[v], v) && Balanced(old(out), old(outcount), out, outcount)
      ensures EdgesAre(out, edges) && edgeCount - |edges| == old(edgeCount) - old(|edges|)
    {
      var l := inn[v];
      var k := 0;
      StrippedNone(out, v);
      while k < |l|
        invariant 0 <= k <= |l| && inn == old(inn) && Stripped(old(out), out, l[..k], v) && Balanced(old(out), old(outcount), out, outcount)
        invariant EdgesAre(out, edges) && edgeCount - |edges| == old(edgeCount) - old(|edges|)
      {
        var a := l[k];
        assert InTable(old(out), old(outcount), l[k], v);
        StrippedNext(old(out), out, l, k, v);
        if a != v {
          var out' := out[a := Minus(out[a], v)];
          ghost var edges' := edges - {(a, v)};
          LessEdge(old(out), old(outcount), out, outcount, edges, a, v, out', edges');
          var outcount' := outcount[a := outcount[a] - 1];
          Put(out', inn, outcount', edgeCount - 1, edges');
        }
        k := k + 1;
      }
      assert l[..k] == l;
    }

    /** Drops the call itself; it must have no edges counted. */
    method DeleteCallNode(v: Id) returns (aborted: bool)
      requires v in out && v in inn && v in outcount
      modifies this
      ensures aborted <==> old(outcount)[v] != 0
      ensures nodeCount == old(nodeCount) - 1 && edgeCount == old(edgeCount)
      ensures !aborted ==> out == old(out) - {v} && inn == old(inn) - {v} && outcount == old(outcount) - {v}
      ensures edges == old(edges)
    {
      nodeCount := nodeCount - 1;
      aborted := outcount[v] != 0;
      if !aborted { out, inn, outcount := out - {v}, inn - {v}, outcount - {v}; }
    }

    /** Removes a call and every edge at it, a loop on itself included. */
    method RemoveCall(v: Id)
      requires Valid() && v in out
      modifies this
      ensures Valid() && out.Keys == old(out.Keys) - {v} && edges == Without(old(edges), v)
    {
      OwnLists(out, inn, outcount, edges, edgeCount, nodeCount, v);
      DeleteOutEdges(v);
      ghost var inn1, count1 := inn, outcount;
      StrippedOwn(old(inn), inn1, out[v], v);
      DeleteInEdges(v);
      ghost var out1, count2 := out, outcount;
      StrippedOwn(old(out), out1, inn[v], v);
      BalancedKeys(old(out), count1, out1, count2);
      ghost var rest := CallRemoved(old(out), old(inn), old(outcount), old(edges), old(edgeCount), nodeCount, v,
                                    out1, inn1, count2, edges, edgeCount);
      var aborted := DeleteCallNode(v);
      edges := rest;
    }
  }

  lemma CallRemoved(out: Table, inn: Table, outcount: map<Id, int>, edges: set<(Id, Id)>, edgeCount: int, nodeCount: int, v: Id,
                    out1: Table, inn1: Table, count1: map<Id, int>, edges1: set<(Id, Id)>, edgeCount1: int) returns (rest: set<(Id, Id)>)
    requires Sound(out, inn, outcount, edges, edgeCount, nodeCount) && v in out && v in inn
    requires Stripped(inn, inn1, out[v], v) && Stripped(out, out1, inn[v], v) && Balanced(out, outcount[v := 0], out1, count1)
    requires v in out1 && out1[v] == out[v] && EdgesAre(out1, edges1) && edgeCount1 - |edges1| == edgeCount - |out[v]| - |edges|
    ensures rest == Without(edges, v)
    ensures Sound(out1 - {v}, inn1 - {v}, count1 - {v}, rest, edgeCount1, nodeCount - 1)
    ensures (out1 - {v}).Keys == out.Keys - {v}
  {
    assert Ajar(0) && Open(0);
    assert Distinct(out[v]);
    rest := TableGone(out1, edges1, v);
    RemovedDual(out, inn, v, out1, inn1);
    RemovedEdges(out, inn, edges, v, out1);
    EdgesUnique(out1 - {v}, rest, Without(edges, v));
    RemovedCounts(out, outcount, v, out1, count1);
    OneLess(out1, v);
    OneLess(out, v);
    assert out1.Keys == out.Keys;
    SameSize(out, out1);
  }

  lemma SameSize(a: Table, b: Table)
    requires a.Keys == b.Keys
    ensures |a| == |b|
  {
    assert |a.Keys| == |b.Keys|;
  }

  lemma NewEdge(out: Table, inn: Table, outcount: map<Id, int>, edges: set<(Id, Id)>, edgeCount: int, nodeCount: int, a: Id, b: Id)
    requires Sound(out, inn, outcount, edges, edgeCount, nodeCount) && a in out && b in out && b !in out[a]
    ensures a in outcount && b in inn && out[a := out[a] + [b]].Keys == out.Keys
    ensures Sound(out[a := out[a] + [b]], inn[b := [a] + inn[b]], outcount[a := outcount[a] + 1], edges + {(a, b)}, edgeCount + 1, nodeCount)
  {
    assert Ajar(0) && Open(0);
    EdgeAdded(out, edges, a, b);
    StillDual(out, inn, a, b);
    CountSet(out, outcount, a, out[a] + [b]);
    assert out[a := out[a] + [b]].Keys == out.Keys;
  }

  /** b is in a's table, and a's edges are counted. */
  ghost predicate InTable(out: Table, outcount: map<Id, int>, a: Id, b: Id) {
    a in out && b in out[a] && Distinct(out[a]) && a in outcount
  }

  /** Tables and counts have changed by the same amounts. */
  ghost predicate Balanced(out: Table, count: map<Id, int>, out': Table, count': map<Id, int>) {
    forall k {:trigger Open(k)} :: Open(k) ==>
      && out'.Keys == out.Keys && count'.Keys == count.Keys
      && forall a {:trigger count'[a]} {:trigger out'[a]} :: a in out && a in count ==> count'[a] - |out'[a]| == count[a] - |out[a]|
  }

  lemma BalancedNext(out: Table, count: map<Id, int>, out': Table, count': map<Id, int>, a: Id, b: Id)
    requires Balanced(out, count, out', count') && InTable(out, count, a, b) && out'.Keys == out.Keys && out'[a] == out[a]
    ensures a in count' && Balanced(out, count, out'[a := Minus(out'[a], b)], count'[a := count'[a] - 1])
  {
    assert Open(0);
    MinusIn(out[a], b);
  }

  lemma LessEdge(out0: Table, count0: map<Id, int>, out: Table, count: map<Id, int>, edges: set<(Id, Id)>, a: Id, b: Id,
                 out': Table, edges': set<(Id, Id)>)
    requires Balanced(out0, count0, out, count) && InTable(out0, count0, a, b) && out.Keys == out0.Keys && out[a] == out0[a]
    requires EdgesAre(out, edges) && out' == out[a := Minus(out[a], b)] && edges' == edges - {(a, b)}
    ensures a in count && EdgesAre(out', edges') && |edges'| == |edges| - 1 && Balanced(out0, count0, out', count[a := count[a] - 1])
  {
    EdgeGone(out, edges, a, b);
    BalancedNext(out0, count0, out, count, a, b);
  }

  lemma BalancedKeys(out: Table, count: map<Id, int>, out': Table, count': map<Id, int>)
    requires Balanced(out, count, out', count')
    ensures out'.Keys == out.Keys && count'.Keys == count.Keys
    ensures forall a :: a in out && a in count && out'[a] == out[a] ==> count'[a] == count[a]
  {
    assert Open(0);
  }

  lemma StrippedOwn(t: Table, s: Table, l: seq<Id>, x: Id)
    requires Stripped(t, s, l, x) && x in t
    ensures s.Keys == t.Keys && s[x] == t[x]
  {
    assert Open(0);
  }

  lemma CountSet(out: Table, outcount: map<Id, int>, a: Id, s: seq<Id>)
    requires Counted(out, outcount) && a in out
    ensures Counted(out[a := s], outcount[a := |s|]) && a in outcount && outcount[a] == |out[a]|
  {
    assert Open(0);
  }

  /** The edges not at v. */
  ghost function Without(edges: set<(Id, Id)>, v: Id): set<(Id, Id)> {
    set e | e in edges && e.0 != v && e.1 != v
  }

  lemma EdgeThere(out: Table, inn: Table, outcount: map<Id, int>, edges: set<(Id, Id)>, edgeCount: int, nodeCount: int, a: Id, b: Id)
    requires Sound(out, inn, outcount, edges, edgeCount, nodeCount) && a in out && b in out[a]
    ensures Sound(out, inn, outcount, edges + {(a, b)}, edgeCount, nodeCount)
  {
    assert Ajar(0) && Open(0);
    assert Out(out, a, b);
    assert (a, b) in edges;
    assert edges + {(a, b)} == edges;
  }

  lemma OneLess(out: Table, v: Id)
    requires v in out
    ensures |out - {v}| == |out| - 1 && (out - {v}).Keys == out.Keys - {v}
  {
    assert out.Keys == (out - {v}).Keys + {v};
  }

  lemma CallAdded(out: Table, inn: Table, outcount: map<Id, int>, edges: set<(Id, Id)>, edgeCount: int, nodeCount: int, v: Id)
    requires Sound(out, inn, outcount, edges, edgeCount, nodeCount) && v !in out
    ensures Sound(out[v := []], inn[v := []], outcount[v := 0], edges, edgeCount, nodeCount + 1)
    ensures out[v := []].Keys == out.Keys + {v}
  {
    assert Ajar(0) && Open(0);
    var out', inn' := out[v := []], inn[v := []];
    forall a, b
      ensures Out(out', a, b) <==> Out(inn', b, a)
    {
      assert Out(out', a, b) <==> Out(out, a, b);
      assert Out(inn', b, a) <==> Out(inn, b, a);
    }
    forall e: (Id, Id)
      ensures e in edges <==> Out(out', e.0, e.1)
    {
      assert Out(out', e.0, e.1) <==> Out(out, e.0, e.1);
    }
  }

  lemma StillDual(out: Table, inn: Table, a: Id, b: Id)
    requires Dual(out, inn) && a in out && b in out && b !in out[a]
    ensures b in inn && Dual(out[a := out[a] + [b]], inn[b := [a] + inn[b]])
  {
    assert Open(0);
    var out', inn' := out[a := out[a] + [b]], inn[b := [a] + inn[b]];
    assert !Out(out, a, b);
    assert !Out(inn, b, a);
    SnocDistinct(out[a], b);
    ConsDistinct(a, inn[b]);
    forall x, y
      ensures Out(out', x, y) <==> Out(inn', y, x)
    {
      assert Out(out', x, y) <==> Out(out, x, y) || (x == a && y == b);
      assert Out(inn', y, x) <==> Out(inn, y, x) || (x == a && y == b);
    }
  }

  lemma NotBefore(s: seq<Id>, k: nat)
    requires Distinct(s) && k < |s|
    ensures s[k] !in s[..k]
  {
    forall i | 0 <= i < k
      ensures s[..k][i] != s[k]
    {
      assert s[i] != s[k];
    }
  }

  lemma OwnLists(out: Table, inn: Table, outcount: map<Id, int>, edges: set<(Id, Id)>, edgeCount: int, nodeCount: int, v: Id)
    requires Sound(out, inn, outcount, edges, edgeCount, nodeCount) && v in out
    ensures v in inn && Distinct(out[v]) && Distinct(inn[v]) && v in outcount && EdgesAre(out, edges)
    ensures forall k :: 0 <= k < |out[v]| ==> out[v][k] in inn
    ensures forall k :: 0 <= k < |inn[v]| ==> InTable(out, outcount[v := 0], inn[v][k], v)
  {
    assert Ajar(0) && Open(0);
    forall k | 0 <= k < |out[v]|
      ensures out[v][k] in inn
    {
      assert Out(out, v, out[v][k]);
    }
    InTables(out, inn, outcount, v);
  }

  lemma InTables(out: Table, inn: Table, outcount: map<Id, int>, v: Id)
    requires Dual(out, inn) && Counted(out, outcount) && v in inn
    ensures forall k :: 0 <= k < |inn[v]| ==> InTable(out, outcount[v := 0], inn[v][k], v)
  {
    assert Open(0);
    forall k | 0 <= k < |inn[v]|
      ensures InTable(out, outcount[v := 0], inn[v][k], v)
    {
      assert Out(inn, v, inn[v][k]);
      assert Distinct(out[inn[v][k]]);
    }
  }

  /** One side without v. */
  lemma StrippedSide(t: Table, other: Table, s: Table, v: Id, a: Id)
    requires DualOpened(t, other) && v in other && Stripped(t, s, other[v], v) && a in t && a != v
    ensures a in s && Distinct(s[a]) && forall b :: b in s[a] <==> b in t[a] && b != v
  {
    assert Open(0);
    assert Distinct(t[a]);
    MinusIn(t[a], v);
    assert Out(t, a, v) <==> Out(other, v, a);
  }

  /** Without v on either side the two agree again. */
  lemma RemovedDual(out: Table, inn: Table, v: Id, out1: Table, inn1: Table)
    requires Dual(out, inn) && v in out && v in inn && Stripped(out, out1, inn[v], v) && Stripped(inn, inn1, out[v], v)
    ensures Dual(out1 - {v}, inn1 - {v})
  {
    assert Open(0);
    var out2, inn2 := out1 - {v}, inn1 - {v};
    assert DualOpened(inn, out);
    forall a | a in out2
      ensures Distinct(out2[a]) && forall b :: b in out2[a] <==> b in out[a] && b != v
    {
      StrippedSide(out, inn, out1, v, a);
    }
    forall b | b in inn2
      ensures Distinct(inn2[b]) && forall a :: a in inn2[b] <==> a in inn[b] && a != v
    {
      StrippedSide(inn, out, inn1, v, b);
    }
    forall a, b
      ensures Out(out2, a, b) <==> Out(inn2, b, a)
    {
      SameOut(out, out2, v, a, b);
      SameOut(inn, inn2, v, b, a);
    }
  }

  lemma SameOut(t: Table, s: Table, v: Id, a: Id, b: Id)
    requires s.Keys == t.Keys - {v} && (a in s ==> (b in s[a] <==> b in t[a] && b != v))
    ensures Out(s, a, b) <==> Out(t, a, b) && a != v && b != v
  {
  }

  lemma RemovedEdges(out: Table, inn: Table, edges: set<(Id, Id)>, v: Id, out1: Table)
    requires EdgesAre(out, edges) && Dual(out, inn) && v in out && v in inn && Stripped(out, out1, inn[v], v)
    ensures EdgesAre(out1 - {v}, Without(edges, v))
  {
    assert Open(0);
    var out2 := out1 - {v};
    forall a | a in out2
      ensures forall b :: b in out2[a] <==> b in out[a] && b != v
    {
      StrippedSide(out, inn, out1, v, a);
    }
    forall e: (Id, Id)
      ensures e in Without(edges, v) <==> Out(out2, e.0, e.1)
    {
      assert Out(out2, e.0, e.1) <==> Out(out, e.0, e.1) && e.0 != v && e.1 != v;
    }
  }

  lemma RemovedCounts(out: Table, outcount: map<Id, int>, v: Id, out1: Table, count: map<Id, int>)
    requires Counted(out, outcount) && Balanced(out, outcount[v := 0], out1, count)
    ensures Counted(out1 - {v}, count - {v})
  {
    assert Open(0);
    var c1 := outcount[v := 0];
    forall a | a in out1 - {v}
      ensures (count - {v})[a] == |(out1 - {v})[a]|
    {
      assert a in out && a in c1 && count[a] - |out1[a]| == c1[a] - |out[a]|;
    }
  }
}
