/**
 A dynamic predicate with one indexed argument: adding a clause at either end, removing
 one, and looking clauses up for a goal.
 */
module ClauseIndex {
  import opened Chains
  import opened Blocks
  import opened Hiding

  // ----- all blocks -----

  function SobLinks(layout: seq<Block>): (s: seq<Addr>)
    ensures |s| == |layout| && forall i :: 0 <= i < |s| ==> s[i] == SobLink(layout[i].sob)
  {
    seq(|layout|, i requires 0 <= i < |layout| => SobLink(layout[i].sob))
  }

  /** No clause lies in two blocks. */
  ghost predicate Apart(layout: seq<Block>) {
    forall o {:trigger Open(o)} :: Open(o) ==> forall i, j, c {:trigger c in layout[i].cls, c in layout[j].cls} ::
      0 <= i < j < |layout| && c in layout[i].cls ==> c !in layout[j].cls
  }

  ghost predicate LayoutRight(hash: Hash, st: Store, layout: seq<Block>) {
    && HdrRight(st.hdrs, PredHdr, SobLinks(layout))
    && Chain(st.cells, true, SobLinks(layout), PredHdr, PredHdr)
    && Apart(layout)
    && forall i {:trigger BlockRight(hash, st, layout[i])} :: 0 <= i < |layout| ==> BlockRight(hash, st, layout[i])
  }

  ghost predicate NoneEmpty(layout: seq<Block>) {
    forall i :: 0 <= i < |layout| ==> layout[i].cls != []
  }

  /** The predicate's clauses, in order. */
  ghost function Clauses(layout: seq<Block>): seq<nat> {
    if layout == [] then [] else layout[0].cls + Clauses(layout[1..])
  }

  /** Between st and st' only block `sob` and clauses in `touched` changed. */
  ghost predicate Untouched(st: Store, st': Store, sob: nat, touched: seq<nat>) {
    forall o {:trigger Open(o)} :: Open(o) ==>
      && (forall s :: s in st.sobs && s != sob ==> s in st'.sobs && st'.sobs[s] == st.sobs[s])
      && (forall s :: SobHdr(s) in st.hdrs && s != sob ==> SobHdr(s) in st'.hdrs && st'.hdrs[SobHdr(s)] == st.hdrs[SobHdr(s)])
      && (forall c :: c in st.keys && c !in touched ==> c in st'.keys && st'.keys[c] == st.keys[c])
      && (forall c {:trigger AllLink(c)} :: AllLink(c) in st.cells && c !in touched ==>
            AllLink(c) in st'.cells && st'.cells[AllLink(c)] == st.cells[AllLink(c)])
      && (forall c {:trigger IndLink(c)} :: IndLink(c) in st.cells && c !in touched ==>
            IndLink(c) in st'.cells && st'.cells[IndLink(c)] == st.cells[IndLink(c)])
  }

  lemma AllCells(st: Store, sob: nat, cls: seq<nat>)
    requires AllRight(st, sob, cls)
    ensures forall c :: c in cls ==> AllLink(c) in st.cells
  {
    forall c | c in cls
      ensures AllLink(c) in st.cells
    {
      var i :| 0 <= i < |cls| && cls[i] == c;
      assert Linked(st.cells, false, AllLinks(cls), SobHdr(sob), SobHdr(sob), i);
    }
  }

  lemma BlockCells(hash: Hash, st: Store, b: Block, c: nat)
    requires BlockRight(hash, st, b) && c in b.cls
    ensures AllLink(c) in st.cells && IndLink(c) in st.cells && c in st.keys
  {
    AllCells(st, b.sob, b.cls);
    MemberCell(hash, st, b.sob, b.cls, c);
  }

  lemma BlockKept(hash: Hash, st: Store, st': Store, b: Block, sob: nat, touched: seq<nat>)
    requires BlockRight(hash, st, b) && Untouched(st, st', sob, touched) && b.sob != sob
    requires forall c :: c in b.cls ==> c !in touched
    ensures BlockRight(hash, st', b)
  {
    assert Open(0);
    forall c | c in b.cls
      ensures AllLink(c) in st.cells && IndLink(c) in st.cells
    {
      BlockCells(hash, st, b, c);
    }
    AllFrame(st, st', b.sob, b.cls);
    TableFrame(hash, st, st', b.sob, b.cls);
  }

  // ----- a predicate -----

  /** Sizes for hash tables. */
  const HASH_SIZES: seq<nat> :=
    [17, 389, 6151, 49157, 196613, 393241, 786433, 1572869,
     3145739, 6291469, 12582917, 25165843, 50331653, 50331653, 50331653, 50331653]

  const LARGEST := 50331653

  ghost predicate LeastSize(n: nat, bound: nat) {
    n in HASH_SIZES && bound <= n && forall m :: m in HASH_SIZES && bound <= m ==> n <= m
  }

  /** The size for a table to follow one of `now` buckets: that size, or the next if more than about three quarters are in use. */
  ghost predicate NextSize(now: nat, nonempty: int, n: nat) {
    if nonempty <= now / 4 * 3 then n == now
    else if now >= LARGEST then n == now + 2
    else LeastSize(n, now + 1)
  }

  function Max(a: nat, b: nat): nat {
    if a < b then b else a
  }

  /** The block at one end. */
  ghost function EndOf(atFront: bool, layout: seq<Block>): nat
    requires layout != []
    ensures EndOf(atFront, layout) < |layout|
  {
    if atFront then 0 else |layout| - 1
  }

  /** The size of the table a clause is to go into: one bucket for a variable argument. */
  ghost predicate SizeAsked(st: Store, layout: seq<Block>, atFront: bool, key: Arg, tabSize: nat, size: nat) {
    if key.Unbound? then size == 1
    else if layout == [] then
      if tabSize <= LARGEST then LeastSize(size, tabSize) else size == LARGEST
    else
      var sob := layout[EndOf(atFront, layout)].sob;
      sob in st.sobs && exists n {:trigger NextSize(|st.sobs[sob].table|, st.sobs[sob].nonempty, n)} ::
        NextSize(|st.sobs[sob].table|, st.sobs[sob].nonempty, n) && size == Max(tabSize, n)
  }

  /** The end block's table has that size already. */
  ghost predicate Fitting(st: Store, layout: seq<Block>, atFront: bool, size: nat) {
    layout != [] && var sob := layout[EndOf(atFront, layout)].sob; sob in st.sobs && |st.sobs[sob].table| == size
  }

  /** The clause is in the end block if its table has the size asked for, and otherwise in a new block of that size at that end. */
  ghost predicate AddedAt(st: Store, st': Store, layout: seq<Block>, layout': seq<Block>, atFront: bool, c: nat, size: nat, newSob: nat) {
    && (if Fitting(st, layout, atFront, size) then
          var k := EndOf(atFront, layout);
          layout' == layout[k := Block(layout[k].sob, Grown(atFront, layout[k].cls, c))] && st'.sobs.Keys == st.sobs.Keys
        else
          && layout' == Grown(atFront, layout, Block(newSob, [c])) && st'.sobs.Keys == st.sobs.Keys + {newSob}
          && newSob in st'.sobs && |st'.sobs[newSob].table| == size)
    && forall s :: s in st.sobs ==> s in st'.sobs && |st'.sobs[s].table| == |st.sobs[s].table|
  }

  /** The clause went where a table of the size asked for is. */
  ghost predicate Housed(st: Store, st': Store, layout: seq<Block>, layout': seq<Block>, atFront: bool, c: nat, key: Arg, tabSize: nat, newSob: nat) {
    forall o {:trigger Open(o)} :: Open(o) ==>
      exists size {:trigger SizeAsked(st, layout, atFront, key, tabSize, size)} ::
        SizeAsked(st, layout, atFront, key, tabSize, size) && AddedAt(st, st', layout, layout', atFront, c, size, newSob)
  }

  lemma NotIn(layout: seq<Block>, mid: seq<Block>, atFront: bool, sob: nat, c: nat)
    requires mid == layout || mid == Grown(atFront, layout, Block(sob, []))
    requires forall i :: 0 <= i < |layout| ==> c !in layout[i].cls
    ensures forall i :: 0 <= i < |mid| ==> c !in mid[i].cls
  {
  }

  /** Making room and placing the clause there. */
  lemma Added(st: Store, st1: Store, st': Store, layout: seq<Block>, mid: seq<Block>, atFront: bool, c: nat, key: Arg, tabSize: nat,
              size: nat, newSob: nat, sob: nat)
    requires SizeAsked(st, layout, atFront, key, tabSize, size) && NoneEmpty(layout) && newSob !in st.sobs && mid != [] && mid[EndOf(atFront, mid)].sob == sob
    requires mid == if Fitting(st, layout, atFront, size) then layout else Grown(atFront, layout, Block(newSob, []))
    requires sob in st1.sobs && |st1.sobs[sob].table| == size && SameTables(st1, st')
    requires st1.sobs == if Fitting(st, layout, atFront, size) then st.sobs else st.sobs[newSob := st1.sobs[sob]]
    ensures var layout' := mid[EndOf(atFront, mid) := Block(sob, Grown(atFront, mid[EndOf(atFront, mid)].cls, c))];
      && NoneEmpty(layout') && Housed(st, st', layout, layout', atFront, c, key, tabSize, newSob)
      && st'.sobs.Keys <= st.sobs.Keys + {newSob} && Clauses(layout') == Grown(atFront, Clauses(layout), c)
  {
    var k := EndOf(atFront, mid);
    var layout' := mid[k := Block(sob, Grown(atFront, mid[k].cls, c))];
    if !Fitting(st, layout, atFront, size) {
      assert mid[k] == Block(newSob, []);
      assert Grown(atFront, mid[k].cls, c) == [c];
      assert layout' == Grown(atFront, layout, Block(newSob, [c]));
    }
    ClausesPlaced(layout, mid, layout', atFront, k, sob, c);
    assert AddedAt(st, st', layout, layout', atFront, c, size, newSob);
  }

  /** The smallest listed size from the bound on, or the largest of all. */
  method SearchSize(bound: nat) returns (n: nat)
    ensures if bound <= LARGEST then LeastSize(n, bound) else n == LARGEST
    ensures n > 0
  {
    var i := 0;
    while i < 15 && HASH_SIZES[i] < bound
      invariant 0 <= i <= 15 && forall j :: 0 <= j < i ==> HASH_SIZES[j] < bound
    {
      i := i + 1;
    }
    n := HASH_SIZES[i];
    SizesAscend(i);
  }

  lemma SizesAscend(i: nat)
    requires i < 16
    ensures HASH_SIZES[15] == LARGEST && forall j :: i <= j < 16 ==> HASH_SIZES[i] <= HASH_SIZES[j]
  {
  }

  /** The last link of a bucket, found from the first. */
  method LastInBucket(cells: Cells, first: Addr, ghost s: seq<Addr>, ghost head: Addr, ghost end: Addr) returns (last: Addr)
    requires Chain(cells, false, s, head, end) && s != [] && first == s[0]
    ensures last == s[|s| - 1]
  {
    last := first;
    assert Linked(cells, false, s, head, end, 0);
    if cells[last].op != DynNoop {
      ghost var i := 0;
      while cells[last].op != DynTrust
        invariant 0 <= i < |s| && |s| > 1 && last == s[i] && last in cells
        decreases |s| - i
      {
        assert Linked(cells, false, s, head, end, i);
        last := cells[last].next;
        i := i + 1;
        assert Linked(cells, false, s, head, end, i);
      }
      assert Linked(cells, false, s, head, end, i);
    }
  }

  /** Puts clause c into the chain of one bucket; the bucket then starts with `first'`. */
  method AddToBucket(cells: Cells, atFront: bool, sob: nat, h: nat, first: Addr, c: nat, ghost m: seq<nat>)
    returns (cells': Cells, first': Addr)
    requires Chain(cells, false, IndLinks(m), Bucket(sob, h), SobHdr(sob)) && c !in m
    requires first == if m == [] then DynFail else IndLink(m[0])
    requires IndLink(c) in cells && cells[IndLink(c)].op == DynNoop
    ensures Chain(cells', false, IndLinks(Grown(atFront, m, c)), Bucket(sob, h), SobHdr(sob))
    ensures first' == IndLink(Grown(atFront, m, c)[0])
    ensures OnlyChanged(cells, cells', IndLinks(m) + [IndLink(c)])
  {
    first' := first;
    var x := IndLink(c);
    if first == DynFail {
      first' := x;
      cells' := cells[x := cells[x].(prev := Bucket(sob, h), next := SobHdr(sob))];
      assert Linked(cells', false, IndLinks([c]), Bucket(sob, h), SobHdr(sob), 0);
    } else if atFront {
      first' := x;
      cells' := PrefixToChain(cells, false, first, x, IndLinks(m), Bucket(sob, h), SobHdr(sob));
      assert IndLinks([c] + m) == [x] + IndLinks(m);
    } else {
      var last := LastInBucket(cells, first, IndLinks(m), Bucket(sob, h), SobHdr(sob));
      cells' := AppendToChain(cells, false, last, x, IndLinks(m), Bucket(sob, h), SobHdr(sob));
      assert IndLinks(m + [c]) == IndLinks(m) + [x];
    }
  }

  /** No block came or went, and no table changed its size. */
  ghost predicate SameTables(st: Store, st': Store) {
    st'.sobs.Keys == st.sobs.Keys && forall s :: s in st.sobs ==> |st'.sobs[s].table| == |st.sobs[s].table|
  }

  class DynPred {
    const hash: Hash
    var st: Store

    constructor (hash: Hash)
      ensures this.hash == hash && LayoutRight(hash, st, []) && st.keys == map[] && st.sobs == map[]
    {
      this.hash := hash;
      st := Store(map[], map[PredHdr := Hdr(Empty, PredHdr, PredHdr)], map[], map[]);
    }

    /** The end block's size, a bigger one if more than about three quarters of its slots are in use. */
    method HashResize(oldTabSize: nat, sob: nat) returns (size: nat)
      requires PredHdr in st.hdrs && (st.hdrs[PredHdr].op == Jump ==> sob in st.sobs && |st.sobs[sob].table| > 0)
      ensures size > 0
      ensures st.hdrs[PredHdr].op == Jump ==>
                exists n {:trigger NextSize(|st.sobs[sob].table|, st.sobs[sob].nonempty, n)} ::
                  NextSize(|st.sobs[sob].table|, st.sobs[sob].nonempty, n) && size == Max(oldTabSize, n)
      ensures st.hdrs[PredHdr].op == Empty ==> if oldTabSize <= LARGEST then LeastSize(size, oldTabSize) else size == LARGEST
    {
      if st.hdrs[PredHdr].op == Jump {
        size := |st.sobs[sob].table|;
        if st.sobs[sob].nonempty > size / 4 * 3 {
          if size >= LARGEST { size := size + 2; } else { size := SearchSize(size + 1); }
        }
        assert NextSize(|st.sobs[sob].table|, st.sobs[sob].nonempty, size);
        if size < oldTabSize { size := oldTabSize; }
      } else {
        size := SearchSize(oldTabSize);
      }
    }

    /** Puts clause c into bucket h of a block. */
    method AddToHashChain(atFront: bool, h: nat, sob: nat, c: nat, ghost cls: seq<nat>)
      requires TableRight(hash, st, sob, cls) && h < |st.sobs[sob].table| && c !in cls
      requires c in st.keys && h == Slot(hash, st.keys[c], |st.sobs[sob].table|)
      requires IndLink(c) in st.cells && st.cells[IndLink(c)].op == DynNoop
      requires st.keys[c].Unbound? ==> |st.sobs[sob].table| == 1
      modifies this
      ensures TableRight(hash, st, sob, Grown(atFront, cls, c)) && |st.sobs[sob].table| == |old(st).sobs[sob].table|
      ensures st == old(st).(cells := st.cells, sobs := old(st).sobs[sob := st.sobs[sob]])
      ensures OnlyChanged(old(st).cells, st.cells, IndLinks(cls + [c]))
    {
      ghost var st0 := st;
      ghost var m := Members(hash, st.keys, cls, |st.sobs[sob].table|, h);
      assert BucketRight(hash, st, sob, cls, h);
      MembersIn(hash, st.keys, cls, |st.sobs[sob].table|, h);
      var sobRec := st.sobs[sob];
      var cells, first := AddToBucket(st.cells, atFront, sob, h, sobRec.table[h], c, m);
      if sobRec.table[h] == DynFail { sobRec := sobRec.(nonempty := sobRec.nonempty + 1); }
      sobRec := sobRec.(table := sobRec.table[h := first]);
      st := st.(sobs := st.sobs[sob := sobRec], cells := cells);
      AddedToTable(hash, st0, st, atFront, sob, cls, c, h);
      AddedCells(hash, st0, st, sob, cls, c, h);
    }

    /** Puts clause c into the chain of all clauses of a block. */
    method AddToAllChain(atFront: bool, sob: nat, c: nat, ghost cls: seq<nat>)
      requires AllRight(st, sob, cls) && c !in cls && AllLink(c) in st.cells
      modifies this
      ensures AllRight(st, sob, Grown(atFront, cls, c))
      ensures st == old(st).(cells := st.cells, hdrs := old(st).hdrs[SobHdr(sob) := st.hdrs[SobHdr(sob)]])
      ensures OnlyChanged(old(st).cells, st.cells, AllLinks(cls + [c]))
    {
      var at, x := SobHdr(sob), AllLink(c);
      var hdr := st.hdrs[at];
      assert AllLinks([c] + cls) == [x] + AllLinks(cls) && AllLinks(cls + [c]) == AllLinks(cls) + [x];
      if hdr.op == Empty {
        st := st.(cells := st.cells[x := Cell(DynNoop, at, at)], hdrs := st.hdrs[at := Hdr(Jump, x, x)]);
        assert Linked(st.cells, false, AllLinks([c]), at, at, 0);
      } else if atFront {
        var cells := PrefixToChain(st.cells, false, hdr.first, x, AllLinks(cls), at, at);
        st := st.(cells := cells, hdrs := st.hdrs[at := hdr.(first := x)]);
      } else {
        var cells := AppendToChain(st.cells, false, hdr.last, x, AllLinks(cls), at, at);
        st := st.(cells := cells, hdrs := st.hdrs[at := hdr.(last := x)]);
      }
    }

    /** Puts a block into the predicate's chain of blocks. */
    method DbAddBuff(atFront: bool, sob: nat, ghost layout: seq<Block>)
      requires HdrRight(st.hdrs, PredHdr, SobLinks(layout)) && Chain(st.cells, true, SobLinks(layout), PredHdr, PredHdr)
      requires SobLink(sob) in st.cells && SobLink(sob) !in SobLinks(layout)
      modifies this
      ensures var links := Grown(atFront, SobLinks(layout), SobLink(sob));
        && HdrRight(st.hdrs, PredHdr, links) && Chain(st.cells, true, links, PredHdr, PredHdr)
        && st == old(st).(cells := st.cells, hdrs := old(st).hdrs[PredHdr := st.hdrs[PredHdr]])
        && OnlyChanged(old(st).cells, st.cells, links)
    {
      var x := SobLink(sob);
      var hdr := st.hdrs[PredHdr];
      if hdr.op == Empty {
        st := st.(cells := st.cells[x := Cell(Noop, PredHdr, PredHdr)], hdrs := st.hdrs[PredHdr := Hdr(Jump, x, x)]);
        assert Linked(st.cells, true, [x], PredHdr, PredHdr, 0);
      } else if atFront {
        var cells := PrefixToChain(st.cells, true, hdr.first, x, SobLinks(layout), PredHdr, PredHdr);
        st := st.(cells := cells, hdrs := st.hdrs[PredHdr := hdr.(first := x)]);
      } else {
        var cells := AppendToChain(st.cells, true, hdr.last, x, SobLinks(layout), PredHdr, PredHdr);
        st := st.(cells := cells, hdrs := st.hdrs[PredHdr := hdr.(last := x)]);
      }
    }

    /** A new clause's links, each alone as yet. */
    method Allocate(c: nat, key: Arg, ghost layout: seq<Block>)
      requires LayoutRight(hash, st, layout) && c !in st.keys
      modifies this
      ensures LayoutRight(hash, st, layout) && st.keys == old(st).keys[c := key] && st.sobs == old(st).sobs
      ensures AllLink(c) in st.cells && IndLink(c) in st.cells && st.cells[IndLink(c)].op == DynNoop
    {
      ghost var st0 := st;
      st := st.(cells := st.cells[AllLink(c) := Cell(DynNoop, DynFail, DynFail)][IndLink(c) := Cell(DynNoop, DynFail, DynFail)],
                keys := st.keys[c := key]);
      NewClauseFits(hash, st0, st, layout, c);
    }

    /** A block with an empty hash table, linked into the predicate's chain. */
    method AddSob(atFront: bool, size: nat, sob: nat, ghost layout: seq<Block>)
      requires LayoutRight(hash, st, layout) && sob !in st.sobs && size > 0
      modifies this
      ensures LayoutRight(hash, st, Grown(atFront, layout, Block(sob, [])))
      ensures st.keys == old(st).keys && sob in st.sobs && st.sobs == old(st).sobs[sob := st.sobs[sob]] && |st.sobs[sob].table| == size
      ensures forall a :: a in old(st).cells ==> a in st.cells && (a.AllLink? || a.IndLink? ==> st.cells[a] == old(st).cells[a])
    {
      ghost var st0 := st;
      SobLinkCells(hash, st, layout);
      st := st.(cells := st.cells[SobLink(sob) := Cell(Fail, DynFail, DynFail)],
                hdrs := st.hdrs[SobHdr(sob) := Hdr(Empty, SobHdr(sob), SobHdr(sob))],
                sobs := st.sobs[sob := Sob(0, seq(size, _ => DynFail))]);
      ChainFrame(st0.cells, st.cells, true, SobLinks(layout), PredHdr, PredHdr);
      DbAddBuff(atFront, sob, layout);
      NewSobFits(hash, st0, st, layout, atFront, sob, size);
    }

    /** Puts a clause that has been allocated into both chains of a block. */
    method PlaceIn(atFront: bool, c: nat, sob: nat, ghost cls: seq<nat>)
      requires BlockRight(hash, st, Block(sob, cls)) && c !in cls
      requires c in st.keys && AllLink(c) in st.cells && IndLink(c) in st.cells && st.cells[IndLink(c)].op == DynNoop
      requires st.keys[c].Unbound? ==> |st.sobs[sob].table| == 1
      modifies this
      ensures BlockRight(hash, st, Block(sob, Grown(atFront, cls, c))) && Untouched(old(st), st, sob, cls + [c]) && st.keys == old(st).keys
      ensures SobCellsKept(old(st), st) && SameTables(old(st), st)
      ensures PredHdr in old(st).hdrs ==> PredHdr in st.hdrs && st.hdrs[PredHdr] == old(st).hdrs[PredHdr]
    {
      ghost var st0 := st;
      var h := Slot(hash, st.keys[c], |st.sobs[sob].table|);
      AddToHashChain(atFront, h, sob, c, cls);
      ghost var st1 := st;
      AfterHashChain(st0, st1, sob, cls, c);
      AddToAllChain(atFront, sob, c, cls);
      PlacedBoth(hash, st0, st1, st, sob, cls + [c], Grown(atFront, cls, c));
    }

    /** Puts a clause that has been allocated into the k-th block. */
    method Place(atFront: bool, c: nat, ghost k: nat, sob: nat, ghost layout: seq<Block>)
      requires LayoutRight(hash, st, layout) && k < |layout| && layout[k].sob == sob
      requires c in st.keys && (forall i :: 0 <= i < |layout| ==> c !in layout[i].cls)
      requires AllLink(c) in st.cells && IndLink(c) in st.cells && st.cells[IndLink(c)].op == DynNoop
      requires sob in st.sobs && (st.keys[c].Unbound? ==> |st.sobs[sob].table| == 1)
      modifies this
      ensures LayoutRight(hash, st, layout[k := Block(sob, Grown(atFront, layout[k].cls, c))]) && st.keys == old(st).keys
      ensures SameTables(old(st), st)
    {
      ghost var cls := layout[k].cls;
      assert BlockRight(hash, st, layout[k]);
      PlaceIn(atFront, c, sob, cls);
      OnlyForBlock(layout, k, c);
      GrownWithin(atFront, cls, c);
      PlacedFits(hash, old(st), st, layout, k, Grown(atFront, cls, c), cls + [c]);
    }

    /** The block a clause is to go into: the one at that end if its table has the size, else a new one. */
    method MakeRoom(atFront: bool, size: nat, newSob: nat, ghost layout: seq<Block>) returns (sob: nat, ghost layout': seq<Block>)
      requires LayoutRight(hash, st, layout) && newSob !in st.sobs && size > 0
      modifies this
      ensures LayoutRight(hash, st, layout') && st.keys == old(st).keys && layout' != [] && layout'[EndOf(atFront, layout')].sob == sob
      ensures layout' == if Fitting(old(st), layout, atFront, size) then layout else Grown(atFront, layout, Block(newSob, []))
      ensures sob in st.sobs && |st.sobs[sob].table| == size
      ensures st.sobs == if Fitting(old(st), layout, atFront, size) then old(st).sobs else old(st).sobs[newSob := st.sobs[sob]]
      ensures sob == newSob || sob in old(st).sobs
      ensures Fitting(old(st), layout, atFront, size) || sob == newSob
      ensures forall a :: a in old(st).cells ==> a in st.cells && (a.AllLink? || a.IndLink? ==> st.cells[a] == old(st).cells[a])
    {
      EndBlock(hash, st, layout, atFront);
      var end := if atFront then st.hdrs[PredHdr].first else st.hdrs[PredHdr].last;
      sob := if end.SobLink? then end.sob else 0;
      layout' := layout;
      if st.hdrs[PredHdr].op == Empty || |st.sobs[sob].table| != size {
        sob := newSob;
        AddSob(atFront, size, sob, layout);
        layout' := Grown(atFront, layout, Block(sob, []));
      }
    }

    method AskSize(atFront: bool, key: Arg, tabSize: nat, ghost layout: seq<Block>) returns (size: nat)
      requires LayoutRight(hash, st, layout)
      ensures SizeAsked(st, layout, atFront, key, tabSize, size) && size > 0 && (key.Unbound? ==> size == 1)
    {
      EndBlock(hash, st, layout, atFront);
      var end := if atFront then st.hdrs[PredHdr].first else st.hdrs[PredHdr].last;
      size := HashResize(tabSize, if end.SobLink? then end.sob else 0);
      if key.Unbound? { size := 1; }
    }

    /** asserta or assertz: the clause goes into the block at that end if its table size fits, else into a new one. */
    method AddClause(atFront: bool, c: nat, key: Arg, tabSize: nat, newSob: nat, ghost layout: seq<Block>)
      returns (ghost layout': seq<Block>)
      requires LayoutRight(hash, st, layout) && NoneEmpty(layout) && c !in st.keys && newSob !in st.sobs
      modifies this
      ensures LayoutRight(hash, st, layout') && NoneEmpty(layout') && st.keys == old(st).keys[c := key]
      ensures st.sobs.Keys <= old(st).sobs.Keys + {newSob}
      ensures Housed(old(st), st, layout, layout', atFront, c, key, tabSize, newSob)
      ensures Clauses(layout') == Grown(atFront, Clauses(layout), c)
    {
      var size := AskSize(atFront, key, tabSize, layout);
      Allocate(c, key, layout);
      NotPlaced(hash, old(st), layout, c);
      ghost var mid;
      var sob;
      sob, mid := MakeRoom(atFront, size, newSob, layout);
      ghost var k, st1 := EndOf(atFront, mid), st;
      NotIn(layout, mid, atFront, newSob, c);
      Place(atFront, c, k, sob, mid);
      layout' := mid[k := Block(sob, Grown(atFront, mid[k].cls, c))];
      Added(old(st), st1, st, layout, mid, atFront, c, key, tabSize, size, newSob, sob);
    }

    /** Takes clause c out of its block's chain of all clauses. */
    method DeleteFromAllChain(c: nat, ghost sob: nat, ghost cls: seq<nat>, ghost i: nat)
      requires AllRight(st, sob, cls) && i < |cls| && cls[i] == c
      modifies this
      ensures AllRight(st, sob, Dropped(cls, i)) && SobHdr(sob) in st.hdrs
      ensures st == old(st).(cells := st.cells, hdrs := old(st).hdrs[SobHdr(sob) := st.hdrs[SobHdr(sob)]])
      ensures OnlyChanged(old(st).cells, st.cells, AllLinks(cls))
    {
      var x := AllLink(c);
      ghost var s := AllLinks(cls);
      PlaceOf(st.cells, false, s, SobHdr(sob), i);
      AllLinksDropped(cls, i);
      var was := st.cells[x];
      var cells := DeleteFromChain(st.cells, x, false, s, SobHdr(sob), SobHdr(sob), i);
      var hdrs := st.hdrs;
      match was.op {
        case DynNoop => hdrs := hdrs[was.prev := Hdr(Empty, was.prev, was.prev)];
        case DynTry => hdrs := hdrs[was.prev := hdrs[was.prev].(first := was.next)];
        case DynTrust => hdrs := hdrs[was.next := hdrs[was.next].(last := was.prev)];
        case _ =>
      }
      HdrAfter(st.hdrs, hdrs, st.cells, false, s, SobHdr(sob), i);
      st := st.(cells := cells, hdrs := hdrs);
    }

    /** Takes block `sob` out of the predicate's chain of blocks. */
    method DeleteFromSobChain(sob: nat, ghost layout: seq<Block>, ghost k: nat)
      requires HdrRight(st.hdrs, PredHdr, SobLinks(layout)) && Chain(st.cells, true, SobLinks(layout), PredHdr, PredHdr)
      requires k < |layout| && layout[k].sob == sob
      modifies this
      ensures HdrRight(st.hdrs, PredHdr, SobLinks(Dropped(layout, k)))
      ensures Chain(st.cells, true, SobLinks(Dropped(layout, k)), PredHdr, PredHdr)
      ensures st == old(st).(cells := st.cells, hdrs := old(st).hdrs[PredHdr := st.hdrs[PredHdr]])
      ensures OnlyChanged(old(st).cells, st.cells, SobLinks(layout))
    {
      var x := SobLink(sob);
      ghost var s := SobLinks(layout);
      PlaceOf(st.cells, true, s, PredHdr, k);
      assert SobLinks(Dropped(layout, k)) == Chains.Without(s, k);
      var was := st.cells[x];
      var cells := DeleteFromChain(st.cells, x, true, s, PredHdr, PredHdr, k);
      var hdrs := st.hdrs;
      match was.op {
        case Noop => hdrs := hdrs[was.prev := Hdr(Empty, was.prev, was.prev)];
        case Try => hdrs := hdrs[was.prev := hdrs[was.prev].(first := was.next)];
        case DynTrust => hdrs := hdrs[was.next := hdrs[was.next].(last := was.prev)];
        case _ =>
      }
      HdrAfter(st.hdrs, hdrs, st.cells, true, s, PredHdr, k);
      st := st.(cells := cells, hdrs := hdrs);
    }

    /** Unlinks clause c, the j-th of its bucket; an emptied bucket is marked as such and counted. */
    method DropFromBucket(c: nat, ghost sob: nat, ghost h: nat, ghost m: seq<nat>, ghost j: nat)
      requires sob in st.sobs && h < |st.sobs[sob].table| && j < |m| && m[j] == c
      requires Chain(st.cells, false, IndLinks(m), Bucket(sob, h), SobHdr(sob)) && st.sobs[sob].table[h] == IndLink(m[0])
      modifies this
      ensures sob in st.sobs && st == old(st).(cells := st.cells, sobs := old(st).sobs[sob := st.sobs[sob]])
      ensures IndLink(c) in st.cells && IndLink(c) in old(st).cells && st.cells[IndLink(c)] == old(st).cells[IndLink(c)]
      ensures OnlyChanged(old(st).cells, st.cells, Chains.Without(IndLinks(m), j))
      ensures Chain(st.cells, false, Chains.Without(IndLinks(m), j), Bucket(sob, h), SobHdr(sob))
      ensures st.sobs[sob].nonempty == old(st).sobs[sob].nonempty - if |m| == 1 then 1 else 0
      ensures st.sobs[sob].table == old(st).sobs[sob].table[h := if |m| == 1 then DynFail else IndLink(Dropped(m, j)[0])]
    {
      var x := IndLink(c);
      assert Linked(st.cells, false, IndLinks(m), Bucket(sob, h), SobHdr(sob), j);
      var was := st.cells[x];
      var cells := DeleteFromChain(st.cells, x, false, IndLinks(m), Bucket(sob, h), SobHdr(sob), j);
      st := st.(cells := cells);
      if was.op == DynNoop {
        var rec := st.sobs[was.prev.sob];
        st := st.(sobs := st.sobs[was.prev.sob := rec.(table := rec.table[was.prev.slot := DynFail], nonempty := rec.nonempty - 1)]);
      } else if was.op == DynTry {
        var rec := st.sobs[was.prev.sob];
        st := st.(sobs := st.sobs[was.prev.sob := rec.(table := rec.table[was.prev.slot := was.next])]);
      }
      assert Dropped(m, j) != [] ==> Dropped(m, j)[0] == if j == 0 then m[1] else m[0];
    }

    /** Takes clause c out of its bucket. */
    method DeleteFromHashChain(c: nat, ghost sob: nat, ghost cls: seq<nat>, ghost i: nat)
      requires TableRight(hash, st, sob, cls) && i < |cls| && cls[i] == c && c !in cls[..i] && c !in cls[i + 1..]
      modifies this
      ensures TableRight(hash, st, sob, Dropped(cls, i)) && IndLink(c) in st.cells && IndLink(c) in old(st).cells
      ensures sob in st.sobs && |st.sobs[sob].table| == |old(st).sobs[sob].table|
      ensures sob in st.sobs && sob in old(st).sobs && st == old(st).(cells := st.cells, sobs := old(st).sobs[sob := st.sobs[sob]])
      ensures OnlyChanged(old(st).cells, st.cells, IndLinks(cls)) && st.cells[IndLink(c)] == old(st).cells[IndLink(c)]
    {
      ghost var st0, size := st, |st.sobs[sob].table|;
      ghost var h := Slot(hash, st.keys[c], size);
      ghost var m, j := Members(hash, st.keys, cls, size, h), |Members(hash, st.keys, cls[..i], size, h)|;
      MembersDropped(hash, st.keys, cls, i, size, h);
      assert BucketRight(hash, st, sob, cls, h);
      DropFromBucket(c, sob, h, m, j);
      RemovedFromTable(hash, st0, st, sob, cls, i, h);
    }

    /** Takes clause c out of its bucket, and finds out whether that empties the block. */
    method TakeFromTable(c: nat, ghost at: nat, ghost cls: seq<nat>, ghost i: nat) returns (sob: nat, emptied: bool)
      requires TableRight(hash, st, at, cls) && i < |cls| && cls[i] == c && c !in cls[..i] && c !in cls[i + 1..]
      modifies this
      ensures TableRight(hash, st, at, Dropped(cls, i)) && (emptied ==> sob == at) && (emptied <==> |cls| == 1)
      ensures at in st.sobs && st == old(st).(cells := st.cells, sobs := old(st).sobs[at := st.sobs[at]])
      ensures |st.sobs[at].table| == |old(st).sobs[at].table|
      ensures OnlyChanged(old(st).cells, st.cells, IndLinks(cls))
    {
      ghost var st0 := st;
      LastOfBucket(hash, st, at, cls, c);
      var alone := st.cells[IndLink(c)].op == DynNoop;
      sob := if alone then st.cells[IndLink(c)].next.sob else 0;
      DeleteFromHashChain(c, at, cls, i);
      emptied := alone && st.sobs[sob].nonempty == 0;
      EmptiedIff(hash, st0, st, at, cls, i, alone);
    }

    /** Takes clause c out of its block. */
    method Unplace(c: nat, ghost layout: seq<Block>, ghost k: nat, ghost i: nat) returns (sob: nat, emptied: bool)
      requires LayoutRight(hash, st, layout) && k < |layout| && i < |layout[k].cls| && layout[k].cls[i] == c
      modifies this
      ensures LayoutRight(hash, st, layout[k := Block(layout[k].sob, Dropped(layout[k].cls, i))]) && st.keys == old(st).keys
      ensures forall s :: s in st.sobs ==> s in old(st).sobs && |st.sobs[s].table| == |old(st).sobs[s].table|
      ensures emptied ==> sob == layout[k].sob
      ensures emptied <==> |layout[k].cls| == 1
    {
      ghost var st0, at, cls := st, layout[k].sob, layout[k].cls;
      assert BlockRight(hash, st, layout[k]);
      OnlyOnce(st, at, cls, i);
      DeleteFromAllChain(c, at, cls, i);
      ghost var st1 := st;
      AfterAllChain(hash, st0, st1, at, cls, AllLinks(cls));
      sob, emptied := TakeFromTable(c, at, cls, i);
      AfterHashChainOf(st1, st, at, Dropped(cls, i), IndLinks(cls));
      UnplacedUntouched(st0, st1, st, at, cls);
      OnlyForItself(layout, k);
      DroppedIn(cls, i);
      PlacedFits(hash, st0, st, layout, k, Dropped(cls, i), cls);
    }

    /** Removes clause c from memory, and its block if it was the last one in it. */
    method DeleteClause(c: nat, ghost layout: seq<Block>, ghost k: nat, ghost i: nat) returns (ghost layout': seq<Block>)
      requires LayoutRight(hash, st, layout) && NoneEmpty(layout)
      requires k < |layout| && i < |layout[k].cls| && layout[k].cls[i] == c
      modifies this
      ensures LayoutRight(hash, st, layout') && NoneEmpty(layout') && st.keys == old(st).keys - {c}
      ensures forall s :: s in st.sobs ==> s in old(st).sobs && |st.sobs[s].table| == |old(st).sobs[s].table|
      ensures layout' == if |layout[k].cls| == 1 then Dropped(layout, k)
                         else layout[k := Block(layout[k].sob, Dropped(layout[k].cls, i))]
    {
      var sob, emptied := Unplace(c, layout, k, i);
      layout' := layout[k := Block(layout[k].sob, Dropped(layout[k].cls, i))];
      if emptied {
        DropBlock(sob, layout', k);
        layout' := Dropped(layout', k);
        assert layout' == Dropped(layout, k);
      }
      GoneFrom(hash, old(st), layout, k, i);
      ghost var st3 := st;
      st := st.(cells := st.cells - {AllLink(c), IndLink(c)}, keys := st.keys - {c});
      ClauseFreed(hash, st3, st, layout', c);
    }

    /** Unlinks a block and frees it. */
    method DropBlock(sob: nat, ghost layout: seq<Block>, ghost k: nat)
      requires LayoutRight(hash, st, layout) && k < |layout| && layout[k].sob == sob
      modifies this
      ensures LayoutRight(hash, st, Dropped(layout, k)) && st.keys == old(st).keys && st.sobs == old(st).sobs - {sob}
    {
      SobLinkCells(hash, st, layout);
      DeleteFromSobChain(sob, layout, k);
      SobUnlinked(hash, old(st), st, layout, k);
      ghost var st1 := st;
      st := st.(cells := st.cells - {SobLink(sob)}, hdrs := st.hdrs - {SobHdr(sob)}, sobs := st.sobs - {sob});
      SobFreed(hash, st1, st, Dropped(layout, k), sob);
    }

    /** The first clause of the goal's bucket in a block. */
    method CheckSobClause(goal: Arg, ghost b: Block, sob: nat) returns (r: Option)
      requires BlockRight(hash, st, b) && goal.Bound? && b.sob == sob
      ensures var v := VisitBlock(hash, st, b, goal); r == if v == [] then None else Some(v[0])
    {
      var h := Slot(hash, goal, |st.sobs[sob].table|);
      assert BucketRight(hash, st, sob, b.cls, h);
      var first := st.sobs[sob].table[h];
      r := if first != DynFail then Some(first.clause) else None;
    }

    /** The block after the k-th, if there is one. */
    method NextSob(sob: nat, ghost layout: seq<Block>, ghost k: nat) returns (r: Option)
      requires Chain(st.cells, true, SobLinks(layout), PredHdr, PredHdr) && k < |layout| && layout[k].sob == sob
      ensures r == if k + 1 < |layout| then Some(layout[k + 1].sob) else None
    {
      assert Linked(st.cells, true, SobLinks(layout), PredHdr, PredHdr, k);
      var link := st.cells[SobLink(sob)];
      if link.op == DynTrust || link.op == Noop { return None; }
      r := Some(link.next.sob);
    }

    /** From block k on, the first clause of the goal's bucket. */
    method FirstClauseSob(goal: Arg, from: nat, ghost layout: seq<Block>, ghost k: nat) returns (r: Option, ghost k': nat)
      requires LayoutRight(hash, st, layout) && goal.Bound? && k < |layout| && layout[k].sob == from
      ensures FoundFirst(hash, st, layout, goal, k, r, k')
    {
      var sob := from;
      k' := k;
      while true
        invariant k <= k' < |layout| && sob == layout[k'].sob && SkippedTo(hash, st, layout, goal, k, k')
        decreases |layout| - k'
      {
        assert BlockRight(hash, st, layout[k']);
        r := CheckSobClause(goal, layout[k'], sob);
        if r != None { return; }
        var next := NextSob(sob, layout, k');
        if next == None { return; }
        sob := next.value;
        k' := k' + 1;
      }
    }

    /** The first clause to try for a goal. */
    method FirstClref(goal: Arg, ghost layout: seq<Block>) returns (r: Option, ghost k': nat)
      requires LayoutRight(hash, st, layout) && NoneEmpty(layout)
      ensures FoundFirst(hash, st, layout, goal, 0, r, k')
      ensures var v := Visit(hash, st, layout, goal); r == if v == [] then None else Some(v[0])
    {
      if st.hdrs[PredHdr].op == Empty { return None, 0; }
      var sob := st.hdrs[PredHdr].first.sob;
      if goal.Unbound? {
        assert BlockRight(hash, st, layout[0]);
        r, k' := Some(st.hdrs[SobHdr(sob)].first.clause), 0;
      } else {
        r, k' := FirstClauseSob(goal, sob, layout, 0);
      }
      assert layout[0..] == layout;
      VisitFromFirst(hash, st, layout, goal, 0, r, k');
    }

    /** The clause to try after c, which is the j-th tried of block k. */
    method NextClref(c: nat, goal: Arg, ghost layout: seq<Block>, ghost k: nat, ghost j: nat) returns (r: Option, ghost k': nat)
      requires LayoutRight(hash, st, layout) && NoneEmpty(layout) && k < |layout|
      requires j < |VisitBlock(hash, st, layout[k], goal)| && VisitBlock(hash, st, layout[k], goal)[j] == c
      ensures var v := VisitBlock(hash, st, layout[k], goal);
        if j + 1 < |v| then r == Some(v[j + 1]) && k' == k else FoundFirst(hash, st, layout, goal, k + 1, r, k')
    {
      ghost var v := VisitBlock(hash, st, layout[k], goal);
      assert BlockRight(hash, st, layout[k]);
      var link := if goal.Unbound? then AllLink(c) else IndLink(c);
      VisitedLink(hash, st, layout[k], goal, j, link);
      if st.cells[link].op == DynTry || st.cells[link].op == DynRetry { return Some(st.cells[link].next.clause), k; }
      var next := NextSob(st.cells[link].next.sob, layout, k);
      if next == None { return None, |layout|; }
      var sob := next.value;
      assert BlockRight(hash, st, layout[k + 1]);
      if goal.Unbound? { return Some(st.hdrs[SobHdr(sob)].first.clause), k + 1; }
      r, k' := FirstClauseSob(goal, sob, layout, k + 1);
    }

    /** All clauses tried for a goal, by first_clref and next_clref. */
    method Lookup(goal: Arg, ghost layout: seq<Block>) returns (tried: seq<nat>)
      requires LayoutRight(hash, st, layout) && NoneEmpty(layout)
      ensures tried == Visit(hash, st, layout, goal)
    {
      ghost var all := Visit(hash, st, layout, goal);
      tried := [];
      var r;
      ghost var k: nat, j: nat := 0, 0;
      r, k := FirstClref(goal, layout);
      VisitFromFirst(hash, st, layout, goal, 0, r, k);
      assert layout[0..] == layout;
      while r != None
        invariant r != None ==> AtClause(hash, st, layout, goal, k, j, r.value)
        invariant tried + Rest(hash, st, layout, goal, k, j, r) == all
        decreases |Rest(hash, st, layout, goal, k, j, r)|
      {
        var c := r.value;
        ghost var was, k': nat := r, k;
        r, k' := NextClref(c, goal, layout, k, j);
        RestNext(hash, st, layout, goal, k, j, was, r, k');
        Regroup(tried, [c], if r == None then [] else Rest(hash, st, layout, goal, k', if j + 1 < |VisitBlock(hash, st, layout[k], goal)| then j + 1 else 0, r));
        tried := tried + [c];
        if j + 1 < |VisitBlock(hash, st, layout[k], goal)| { j := j + 1; } else { k, j := k', 0; }
      }
    }
  }

  // ----- what a lookup visits -----

  datatype Option = None | Some(value: nat)

  /** A block's clauses that are tried: all, or those of the goal's bucket. */
  ghost function VisitBlock(hash: Hash, st: Store, b: Block, goal: Arg): seq<nat> {
    if goal.Unbound? then b.cls
    else if b.sob in st.sobs && |st.sobs[b.sob].table| > 0 && Keyed(st.keys, b.cls)
      then Members(hash, st.keys, b.cls, |st.sobs[b.sob].table|, Slot(hash, goal, |st.sobs[b.sob].table|))
    else []
  }

  ghost function Visit(hash: Hash, st: Store, layout: seq<Block>, goal: Arg): seq<nat> {
    if layout == [] then [] else VisitBlock(hash, st, layout[0], goal) + Visit(hash, st, layout[1..], goal)
  }

  /** Blocks k to k' have nothing to try. */
  ghost predicate SkippedTo(hash: Hash, st: Store, layout: seq<Block>, goal: Arg, k: nat, k': nat) {
    forall i :: k <= i < k' && i < |layout| ==> VisitBlock(hash, st, layout[i], goal) == []
  }

  /** r is the first clause to try from block k on, and lies in block k'. */
  ghost predicate FoundFirst(hash: Hash, st: Store, layout: seq<Block>, goal: Arg, k: nat, r: Option, k': nat) {
    if r == None then SkippedTo(hash, st, layout, goal, k, |layout|)
    else k <= k' < |layout| && SkippedTo(hash, st, layout, goal, k, k') && AtClause(hash, st, layout, goal, k', 0, r.value)
  }

  /** c is the j-th clause tried of block k. */
  ghost predicate AtClause(hash: Hash, st: Store, layout: seq<Block>, goal: Arg, k: nat, j: nat, c: nat) {
    k < |layout| && j < |VisitBlock(hash, st, layout[k], goal)| && VisitBlock(hash, st, layout[k], goal)[j] == c
  }

  /** What remains to be tried, from the j-th of block k on. */
  ghost function Rest(hash: Hash, st: Store, layout: seq<Block>, goal: Arg, k: nat, j: nat, r: Option): seq<nat>
    requires r != None ==> AtClause(hash, st, layout, goal, k, j, r.value)
  {
    if r == None then [] else VisitBlock(hash, st, layout[k], goal)[j..] + Visit(hash, st, layout[k + 1..], goal)
  }

  lemma Regroup(a: seq<nat>, b: seq<nat>, c: seq<nat>)
    ensures a + (b + c) == (a + b) + c
  {
  }

  lemma RestNext(hash: Hash, st: Store, layout: seq<Block>, goal: Arg, k: nat, j: nat, r: Option, r': Option, k': nat)
    requires r != None && AtClause(hash, st, layout, goal, k, j, r.value)
    requires var v := VisitBlock(hash, st, layout[k], goal);
      if j + 1 < |v| then r' == Some(v[j + 1]) && k' == k else FoundFirst(hash, st, layout, goal, k + 1, r', k')
    ensures var j' := if j + 1 < |VisitBlock(hash, st, layout[k], goal)| then j + 1 else 0;
      && (r' != None ==> AtClause(hash, st, layout, goal, k', j', r'.value))
      && Rest(hash, st, layout, goal, k, j, r) == [r.value] + Rest(hash, st, layout, goal, k', j', r')
  {
    var v := VisitBlock(hash, st, layout[k], goal);
    var more := Visit(hash, st, layout[k + 1..], goal);
    assert v[j..] == [v[j]] + v[j + 1..];
    if j + 1 == |v| {
      VisitFromFirst(hash, st, layout, goal, k + 1, r', k');
      assert v[j..] == [v[j]];
      if r' != None { assert VisitBlock(hash, st, layout[k'], goal)[0..] == VisitBlock(hash, st, layout[k'], goal); }
    } else {
      Regroup([v[j]], v[j + 1..], more);
    }
  }

  lemma {:induction false} VisitFromFirst(hash: Hash, st: Store, layout: seq<Block>, goal: Arg, k: nat, r: Option, k': nat)
    requires k <= |layout| && FoundFirst(hash, st, layout, goal, k, r, k')
    ensures Visit(hash, st, layout[k..], goal) ==
            if r == None then [] else VisitBlock(hash, st, layout[k'], goal) + Visit(hash, st, layout[k' + 1..], goal)
    decreases |layout| - k
  {
    if k < |layout| {
      var rest := layout[k..];
      assert rest[0] == layout[k] && rest[1..] == layout[k + 1..];
      assert Visit(hash, st, rest, goal) == VisitBlock(hash, st, rest[0], goal) + Visit(hash, st, rest[1..], goal);
      if r == None || k < k' {
        VisitFromFirst(hash, st, layout, goal, k + 1, r, k');
        assert VisitBlock(hash, st, layout[k], goal) == [];
        assert [] + Visit(hash, st, rest[1..], goal) == Visit(hash, st, rest[1..], goal);
      }
    }
  }

  /** The links along which the j-th clause tried in a block leads to the next. */
  lemma VisitedLink(hash: Hash, st: Store, b: Block, goal: Arg, j: nat, link: Addr)
    requires BlockRight(hash, st, b) && j < |VisitBlock(hash, st, b, goal)|
    requires link == if goal.Unbound? then AllLink(VisitBlock(hash, st, b, goal)[j]) else IndLink(VisitBlock(hash, st, b, goal)[j])
    ensures link in st.cells
    ensures var v := VisitBlock(hash, st, b, goal);
      if j + 1 < |v| then st.cells[link].op in {DynTry, DynRetry}
        && st.cells[link].next == if goal.Unbound? then AllLink(v[j + 1]) else IndLink(v[j + 1])
      else st.cells[link].op in {DynNoop, DynTrust} && st.cells[link].next == SobHdr(b.sob)
  {
    if goal.Unbound? {
      assert Linked(st.cells, false, AllLinks(b.cls), SobHdr(b.sob), SobHdr(b.sob), j);
    } else {
      var h := Slot(hash, goal, |st.sobs[b.sob].table|);
      assert BucketRight(hash, st, b.sob, b.cls, h);
      assert Linked(st.cells, false, IndLinks(VisitBlock(hash, st, b, goal)), Bucket(b.sob, h), SobHdr(b.sob), j);
    }
  }

  lemma RemovedFromTable(hash: Hash, st: Store, st': Store, sob: nat, cls: seq<nat>, i: nat, h: nat)
    requires TableRight(hash, st, sob, cls) && i < |cls| && h == Slot(hash, st.keys[cls[i]], |st.sobs[sob].table|)
    requires st'.keys == st.keys && sob in st'.sobs && |st'.sobs[sob].table| == |st.sobs[sob].table|
    requires forall k :: 0 <= k < |st.sobs[sob].table| && k != h ==> st'.sobs[sob].table[k] == st.sobs[sob].table[k]
    requires Keyed(st.keys, cls[..i])
    requires var size := |st.sobs[sob].table|;
      var m, j := Members(hash, st.keys, cls, size, h), |Members(hash, st.keys, cls[..i], size, h)|;
      && j < |m| && OnlyChanged(st.cells, st'.cells, Chains.Without(IndLinks(m), j))
      && st'.sobs[sob].table[h] == (if |m| == 1 then DynFail else IndLink(Dropped(m, j)[0]))
      && Chain(st'.cells, false, Chains.Without(IndLinks(m), j), Bucket(sob, h), SobHdr(sob))
      && st'.sobs[sob].nonempty == st.sobs[sob].nonempty - if |m| == 1 then 1 else 0
    ensures TableRight(hash, st', sob, Dropped(cls, i)) && OnlyChanged(st.cells, st'.cells, IndLinks(cls))
  {
    var size, cls' := |st.sobs[sob].table|, Dropped(cls, i);
    var m, j := Members(hash, st.keys, cls, size, h), |Members(hash, st.keys, cls[..i], size, h)|;
    forall k: nat | k != h
      ensures Members(hash, st.keys, cls', size, k) == Members(hash, st.keys, cls, size, k)
    {
      MembersDropped(hash, st.keys, cls, i, size, k);
    }
    MembersDropped(hash, st.keys, cls, i, size, h);
    MembersIn(hash, st.keys, cls, size, h);
    var gone := Dropped(m, j);
    IndLinksDropped(m, j);
    DroppedIn(m, j);
    LinksOf(gone, cls);
    OtherMembersKept(hash, st, st', sob, cls, gone, h);
    DroppedIn(cls, i);
    TableChanged(hash, st, st', sob, cls, cls', h);
  }

  /** The header after link s[k] has gone, from what the link said of its place. */
  lemma HdrAfter(hdrs: map<Addr, Hdr>, hdrs': map<Addr, Hdr>, cells: Cells, sob: bool, s: seq<Addr>, at: Addr, k: nat)
    requires HdrRight(hdrs, at, s) && Chain(cells, sob, s, at, at) && k < |s| && s[k] in cells
    requires var was := cells[s[k]];
      && (was.op in {Alone(sob), Leading(sob)} ==> was.prev == at) && (was.op == DynTrust ==> was.next == at)
      && hdrs' == if was.op == Alone(sob) then hdrs[at := Hdr(Empty, at, at)]
                  else if was.op == Leading(sob) then hdrs[at := hdrs[at].(first := was.next)]
                  else if was.op == DynTrust then hdrs[at := hdrs[at].(last := was.prev)]
                  else hdrs
    ensures HdrRight(hdrs', at, Chains.Without(s, k)) && hdrs' == hdrs[at := hdrs'[at]]
  {
    assert Linked(cells, sob, s, at, at, k);
    assert hdrs == hdrs[at := hdrs[at]];
  }

  lemma PlaceOf(cells: Cells, sob: bool, s: seq<Addr>, at: Addr, k: nat)
    requires Chain(cells, sob, s, at, at) && k < |s|
    ensures s[k] in cells
    ensures var was := cells[s[k]];
      (was.op in {Alone(sob), Leading(sob)} ==> was.prev == at) && (was.op == DynTrust ==> was.next == at)
      && was.op in {Alone(sob), Leading(sob), DynTrust, DynRetry}
  {
    assert Linked(cells, sob, s, at, at, k);
  }

  lemma OnlyOnce(st: Store, sob: nat, cls: seq<nat>, i: nat)
    requires AllRight(st, sob, cls) && i < |cls|
    ensures cls[i] !in cls[..i] && cls[i] !in cls[i + 1..] && cls[i] !in Dropped(cls, i)
  {
    var s := AllLinks(cls);
    assert forall j :: 0 <= j < i ==> s[j] != s[i];
    assert forall j :: i < j < |cls| ==> s[i] != s[j];
  }

  /** The only clause of a bucket has the code for being alone, and names its block. */
  lemma LastOfBucket(hash: Hash, st: Store, sob: nat, cls: seq<nat>, c: nat)
    requires TableRight(hash, st, sob, cls) && c in cls
    ensures IndLink(c) in st.cells
    ensures var size := |st.sobs[sob].table|; var m := Members(hash, st.keys, cls, size, Slot(hash, st.keys[c], size));
      && (st.cells[IndLink(c)].op == DynNoop <==> |m| == 1)
      && (st.cells[IndLink(c)].op == DynNoop ==> st.cells[IndLink(c)].next == SobHdr(sob))
  {
    var size := |st.sobs[sob].table|;
    var h := Slot(hash, st.keys[c], size);
    var m := Members(hash, st.keys, cls, size, h);
    assert BucketRight(hash, st, sob, cls, h);
    MembersIn(hash, st.keys, cls, size, h);
    var j :| 0 <= j < |m| && m[j] == c;
    assert Linked(st.cells, false, IndLinks(m), Bucket(sob, h), SobHdr(sob), j);
  }

  lemma AfterHashChainOf(st: Store, st': Store, sob: nat, cls: seq<nat>, s: seq<Addr>)
    requires AllRight(st, sob, cls) && st'.hdrs == st.hdrs && OnlyChanged(st.cells, st'.cells, s) && forall a :: a in s ==> a.IndLink?
    ensures AllRight(st', sob, cls)
  {
    AllCells(st, sob, cls);
    AllFrame(st, st', sob, cls);
  }

  /** The bucket was emptied and no other has clauses: exactly when the clause was the block's last. */
  lemma EmptiedIff(hash: Hash, st: Store, st': Store, sob: nat, cls: seq<nat>, i: nat, alone: bool)
    requires TableRight(hash, st, sob, cls) && i < |cls| && TableRight(hash, st', sob, Dropped(cls, i))
    requires st'.keys == st.keys && |st'.sobs[sob].table| == |st.sobs[sob].table|
    requires var size := |st.sobs[sob].table|;
      alone <==> |Members(hash, st.keys, cls, size, Slot(hash, st.keys[cls[i]], size))| == 1
    ensures alone && st'.sobs[sob].nonempty == 0 <==> |cls| == 1
  {
    var size, rest := |st.sobs[sob].table|, Dropped(cls, i);
    if rest == [] {
      FilledNone(hash, st.keys, size, size);
      assert cls == [cls[0]];
      MembersOne(hash, st.keys, cls[0], size, Slot(hash, st.keys[cls[0]], size));
    } else {
      var h := Slot(hash, st'.keys[rest[0]], size);
      MembersIn(hash, st'.keys, rest, size, h);
      assert rest[0] in Members(hash, st'.keys, rest, size, h);
      FilledPositive(hash, st'.keys, rest, size, size, h);
    }
  }

  lemma UnplacedUntouched(st0: Store, st1: Store, st2: Store, sob: nat, cls: seq<nat>)
    requires SobHdr(sob) in st1.hdrs && st1 == st0.(cells := st1.cells, hdrs := st0.hdrs[SobHdr(sob) := st1.hdrs[SobHdr(sob)]])
    requires OnlyChanged(st0.cells, st1.cells, AllLinks(cls))
    requires sob in st2.sobs && st2 == st1.(cells := st2.cells, sobs := st1.sobs[sob := st2.sobs[sob]])
    requires OnlyChanged(st1.cells, st2.cells, IndLinks(cls))
    ensures Untouched(st0, st2, sob, cls)
    ensures SobCellsKept(st0, st2)
  {
    forall c | AllLink(c) in st0.cells && c !in cls
      ensures AllLink(c) in st2.cells && st2.cells[AllLink(c)] == st0.cells[AllLink(c)]
    {
      assert AllLink(c) !in AllLinks(cls) && AllLink(c) !in IndLinks(cls);
    }
    forall c | IndLink(c) in st0.cells && c !in cls
      ensures IndLink(c) in st2.cells && st2.cells[IndLink(c)] == st0.cells[IndLink(c)]
    {
      assert IndLink(c) !in AllLinks(cls) && IndLink(c) !in IndLinks(cls);
    }
  }

  lemma SobUnlinked(hash: Hash, st: Store, st': Store, layout: seq<Block>, k: nat)
    requires LayoutRight(hash, st, layout) && k < |layout|
    requires HdrRight(st'.hdrs, PredHdr, SobLinks(Dropped(layout, k))) && Chain(st'.cells, true, SobLinks(Dropped(layout, k)), PredHdr, PredHdr)
    requires st' == st.(cells := st'.cells, hdrs := st.hdrs[PredHdr := st'.hdrs[PredHdr]])
    requires OnlyChanged(st.cells, st'.cells, SobLinks(layout))
    ensures LayoutRight(hash, st', Dropped(layout, k))
    ensures forall i :: 0 <= i < |Dropped(layout, k)| ==> Dropped(layout, k)[i].sob != layout[k].sob
  {
    var layout' := Dropped(layout, k);
    forall i | 0 <= i < |layout'|
      ensures BlockRight(hash, st', layout'[i]) && layout'[i].sob != layout[k].sob
    {
      var j := if i < k then i else i + 1;
      assert layout'[i] == layout[j] && BlockRight(hash, st, layout[j]);
      OtherSob(st, layout, j, k);
      BlockSameClauses(hash, st, st', layout[j]);
    }
    ApartDropped(layout, k);
  }

  lemma BlockSameClauses(hash: Hash, st: Store, st': Store, b: Block)
    requires BlockRight(hash, st, b) && b.sob in st'.sobs && st'.sobs[b.sob] == st.sobs[b.sob]
    requires SobHdr(b.sob) in st'.hdrs && st'.hdrs[SobHdr(b.sob)] == st.hdrs[SobHdr(b.sob)]
    requires forall c :: c in b.cls ==> c in st'.keys && c in st.keys && st'.keys[c] == st.keys[c]
    requires forall c :: c in b.cls && AllLink(c) in st.cells ==> AllLink(c) in st'.cells && st'.cells[AllLink(c)] == st.cells[AllLink(c)]
    requires forall c :: c in b.cls && IndLink(c) in st.cells ==> IndLink(c) in st'.cells && st'.cells[IndLink(c)] == st.cells[IndLink(c)]
    ensures BlockRight(hash, st', b)
  {
    forall c | c in b.cls
      ensures AllLink(c) in st.cells && IndLink(c) in st.cells
    {
      BlockCells(hash, st, b, c);
    }
    AllFrame(st, st', b.sob, b.cls);
    TableFrame(hash, st, st', b.sob, b.cls);
  }

  lemma ApartDropped(layout: seq<Block>, k: nat)
    requires Apart(layout) && k < |layout|
    ensures Apart(Dropped(layout, k))
  {
    var layout' := Dropped(layout, k);
    forall i, j, x | 0 <= i < j < |layout'| && x in layout'[i].cls
      ensures x !in layout'[j].cls
    {
      ApartFrom(layout, if i < k then i else i + 1, if j < k then j else j + 1);
    }
  }

  lemma SobFreed(hash: Hash, st: Store, st': Store, layout: seq<Block>, sob: nat)
    requires LayoutRight(hash, st, layout) && forall i :: 0 <= i < |layout| ==> layout[i].sob != sob
    requires st' == st.(cells := st.cells - {SobLink(sob)}, hdrs := st.hdrs - {SobHdr(sob)}, sobs := st.sobs - {sob})
    ensures LayoutRight(hash, st', layout)
  {
    SobLinkCells(hash, st, layout);
    ChainFrame(st.cells, st'.cells, true, SobLinks(layout), PredHdr, PredHdr);
    forall i | 0 <= i < |layout|
      ensures BlockRight(hash, st', layout[i])
    {
      assert BlockRight(hash, st, layout[i]);
      BlockSameClauses(hash, st, st', layout[i]);
    }
  }

  lemma ClauseFreed(hash: Hash, st: Store, st': Store, layout: seq<Block>, c: nat)
    requires LayoutRight(hash, st, layout) && forall i :: 0 <= i < |layout| ==> c !in layout[i].cls
    requires st' == st.(cells := st.cells - {AllLink(c), IndLink(c)}, keys := st.keys - {c})
    ensures LayoutRight(hash, st', layout)
  {
    SobLinkCells(hash, st, layout);
    ChainFrame(st.cells, st'.cells, true, SobLinks(layout), PredHdr, PredHdr);
    forall i | 0 <= i < |layout|
      ensures BlockRight(hash, st', layout[i])
    {
      assert BlockRight(hash, st, layout[i]);
      BlockSameClauses(hash, st, st', layout[i]);
    }
  }

  /** The removed clause lies in no block any more. */
  lemma GoneFrom(hash: Hash, st: Store, layout: seq<Block>, k: nat, i: nat)
    requires LayoutRight(hash, st, layout) && k < |layout| && i < |layout[k].cls|
    ensures var c, mid := layout[k].cls[i], layout[k := Block(layout[k].sob, Dropped(layout[k].cls, i))];
      && (forall j :: 0 <= j < |mid| ==> c !in mid[j].cls)
      && (forall j :: 0 <= j < |Dropped(layout, k)| ==> c !in Dropped(layout, k)[j].cls)
  {
    assert BlockRight(hash, st, layout[k]);
    OnlyOnce(st, layout[k].sob, layout[k].cls, i);
    forall j | 0 <= j < |layout| && j != k
      ensures layout[k].cls[i] !in layout[j].cls
    {
      ApartFrom(layout, k, j);
    }
  }

  lemma DroppedIn(s: seq<nat>, i: nat)
    requires i < |s|
    ensures forall x :: x in Dropped(s, i) ==> x in s
  {
  }

  lemma NewClauseFits(hash: Hash, st: Store, st': Store, layout: seq<Block>, c: nat)
    requires LayoutRight(hash, st, layout) && c !in st.keys
    requires st'.hdrs == st.hdrs && st'.sobs == st.sobs && c in st'.keys && st'.keys == st.keys[c := st'.keys[c]]
    requires forall a :: a in st.cells ==> a in st'.cells && (a != AllLink(c) && a != IndLink(c) ==> st'.cells[a] == st.cells[a])
    ensures LayoutRight(hash, st', layout)
  {
    SobLinkCells(hash, st, layout);
    ChainFrame(st.cells, st'.cells, true, SobLinks(layout), PredHdr, PredHdr);
    forall i | 0 <= i < |layout|
      ensures BlockRight(hash, st', layout[i])
    {
      var b := layout[i];
      assert BlockRight(hash, st, layout[i]);
      forall x | x in b.cls
        ensures x != c && AllLink(x) in st.cells && IndLink(x) in st.cells
      {
        BlockCells(hash, st, b, x);
      }
      AllFrame(st, st', b.sob, b.cls);
      TableFrame(hash, st, st', b.sob, b.cls);
    }
  }

  lemma SobLinkCells(hash: Hash, st: Store, layout: seq<Block>)
    requires LayoutRight(hash, st, layout)
    ensures forall i :: 0 <= i < |layout| ==> SobLink(layout[i].sob) in st.cells && layout[i].sob in st.sobs
  {
    forall i | 0 <= i < |layout|
      ensures SobLink(layout[i].sob) in st.cells && layout[i].sob in st.sobs
    {
      assert Linked(st.cells, true, SobLinks(layout), PredHdr, PredHdr, i);
      assert BlockRight(hash, st, layout[i]);
    }
  }

  lemma NewSobFits(hash: Hash, st: Store, st': Store, layout: seq<Block>, atFront: bool, sob: nat, size: nat)
    requires LayoutRight(hash, st, layout) && sob !in st.sobs && size > 0
    requires st'.keys == st.keys && st'.sobs == st.sobs[sob := Sob(0, seq(size, _ => DynFail))]
    requires SobHdr(sob) in st'.hdrs && st'.hdrs[SobHdr(sob)] == Hdr(Empty, SobHdr(sob), SobHdr(sob))
    requires forall s :: s != sob && SobHdr(s) in st.hdrs ==> SobHdr(s) in st'.hdrs && st'.hdrs[SobHdr(s)] == st.hdrs[SobHdr(s)]
    requires forall a :: a in st.cells ==> a in st'.cells && (a.AllLink? || a.IndLink? ==> st'.cells[a] == st.cells[a])
    requires var links := Grown(atFront, SobLinks(layout), SobLink(sob));
      HdrRight(st'.hdrs, PredHdr, links) && Chain(st'.cells, true, links, PredHdr, PredHdr)
    ensures LayoutRight(hash, st', Grown(atFront, layout, Block(sob, [])))
  {
    var b := Block(sob, []);
    var layout' := Grown(atFront, layout, b);
    assert SobLinks(layout') == Grown(atFront, SobLinks(layout), SobLink(sob));
    EmptyBlock(hash, st', sob, size);
    forall i | 0 <= i < |layout|
      ensures BlockRight(hash, st', layout[i])
    {
      assert BlockRight(hash, st, layout[i]);
      BlockKept(hash, st, st', layout[i], sob, []);
    }
    ApartMore(layout, atFront, sob);
    GrownBlocks(hash, st', layout, atFront, b);
  }

  lemma GrownBlocks(hash: Hash, st: Store, layout: seq<Block>, atFront: bool, b: Block)
    requires (forall i {:trigger BlockRight(hash, st, layout[i])} :: 0 <= i < |layout| ==> BlockRight(hash, st, layout[i])) && BlockRight(hash, st, b)
    ensures var layout' := Grown(atFront, layout, b);
      forall i {:trigger BlockRight(hash, st, layout'[i])} :: 0 <= i < |layout'| ==> BlockRight(hash, st, layout'[i])
  {
    var layout' := Grown(atFront, layout, b);
    forall i | 0 <= i < |layout'|
      ensures BlockRight(hash, st, layout'[i])
    {
      var j := if atFront then i - 1 else i;
      if 0 <= j < |layout| { assert BlockRight(hash, st, layout[j]); }
    }
  }

  lemma ApartMore(layout: seq<Block>, atFront: bool, sob: nat)
    requires Apart(layout)
    ensures Apart(Grown(atFront, layout, Block(sob, [])))
  {
    var layout' := Grown(atFront, layout, Block(sob, []));
    forall i, j, x | 0 <= i < j < |layout'| && x in layout'[i].cls
      ensures x !in layout'[j].cls
    {
      var d := if atFront then 1 else 0;
      if layout'[j].cls != [] {
        assert layout'[i] == layout[i - d] && layout'[j] == layout[j - d];
        ApartFrom(layout, i - d, j - d);
      }
    }
  }

  lemma EmptyBlock(hash: Hash, st: Store, sob: nat, size: nat)
    requires size > 0 && sob in st.sobs && st.sobs[sob] == Sob(0, seq(size, _ => DynFail))
    requires SobHdr(sob) in st.hdrs && st.hdrs[SobHdr(sob)] == Hdr(Empty, SobHdr(sob), SobHdr(sob))
    ensures BlockRight(hash, st, Block(sob, []))
  {
    FilledNone(hash, st.keys, size, size);
    forall h | 0 <= h < size
      ensures BucketRight(hash, st, sob, [], h)
    {
    }
  }

  lemma AfterHashChain(st: Store, st': Store, sob: nat, cls: seq<nat>, c: nat)
    requires AllRight(st, sob, cls) && st'.hdrs == st.hdrs && OnlyChanged(st.cells, st'.cells, IndLinks(cls + [c]))
    ensures AllRight(st', sob, cls)
  {
    AllCells(st, sob, cls);
    forall x | x in cls
      ensures st'.cells[AllLink(x)] == st.cells[AllLink(x)]
    {
      assert AllLink(x) !in IndLinks(cls + [c]);
    }
    AllFrame(st, st', sob, cls);
  }

  lemma AfterAllChain(hash: Hash, st: Store, st': Store, sob: nat, cls: seq<nat>, s: seq<Addr>)
    requires TableRight(hash, st, sob, cls) && st'.sobs == st.sobs && st'.keys == st.keys
    requires OnlyChanged(st.cells, st'.cells, s) && forall a :: a in s ==> a.AllLink?
    ensures TableRight(hash, st', sob, cls)
  {
    forall x | x in cls
      ensures IndLink(x) in st.cells && IndLink(x) !in s
    {
      MemberCell(hash, st, sob, cls, x);
    }
    TableFrame(hash, st, st', sob, cls);
  }

  /** The chain of blocks is untouched. */
  ghost predicate SobCellsKept(st: Store, st': Store) {
    forall o {:trigger Open(o)} :: Open(o) ==> forall s :: SobLink(s) in st.cells ==> SobLink(s) in st'.cells && st'.cells[SobLink(s)] == st.cells[SobLink(s)]
  }

  /** First the hash table and one bucket changed, then the chain of all clauses. */
  lemma PlacedBoth(hash: Hash, st0: Store, st1: Store, st2: Store, sob: nat, touched: seq<nat>, cls': seq<nat>)
    requires TableRight(hash, st1, sob, cls') && AllRight(st2, sob, cls')
    requires st1 == st0.(cells := st1.cells, sobs := st0.sobs[sob := st1.sobs[sob]])
    requires OnlyChanged(st0.cells, st1.cells, IndLinks(touched))
    requires st2 == st1.(cells := st2.cells, hdrs := st1.hdrs[SobHdr(sob) := st2.hdrs[SobHdr(sob)]])
    requires OnlyChanged(st1.cells, st2.cells, AllLinks(touched))
    ensures BlockRight(hash, st2, Block(sob, cls')) && Untouched(st0, st2, sob, touched) && SobCellsKept(st0, st2)
    ensures st2.keys == st0.keys && st2.sobs.Keys == st0.sobs.Keys + {sob}
    ensures PredHdr in st0.hdrs ==> PredHdr in st2.hdrs && st2.hdrs[PredHdr] == st0.hdrs[PredHdr]
  {
    AfterAllChain(hash, st1, st2, sob, cls', AllLinks(touched));
    PlacedUntouched(st0, st1, st2, sob, touched);
  }

  lemma GrownWithin(atFront: bool, cls: seq<nat>, c: nat)
    ensures forall x :: x in Grown(atFront, cls, c) ==> x in cls + [c]
  {
  }

  lemma PlacedUntouched(st0: Store, st1: Store, st2: Store, sob: nat, cls: seq<nat>)
    requires sob in st1.sobs && st1 == st0.(cells := st1.cells, sobs := st0.sobs[sob := st1.sobs[sob]])
    requires OnlyChanged(st0.cells, st1.cells, IndLinks(cls))
    requires SobHdr(sob) in st2.hdrs && st2 == st1.(cells := st2.cells, hdrs := st1.hdrs[SobHdr(sob) := st2.hdrs[SobHdr(sob)]])
    requires OnlyChanged(st1.cells, st2.cells, AllLinks(cls))
    ensures Untouched(st0, st2, sob, cls)
    ensures SobCellsKept(st0, st2)
  {
    forall c | AllLink(c) in st0.cells && c !in cls
      ensures AllLink(c) in st2.cells && st2.cells[AllLink(c)] == st0.cells[AllLink(c)]
    {
      assert AllLink(c) !in AllLinks(cls) && AllLink(c) !in IndLinks(cls);
    }
    forall c | IndLink(c) in st0.cells && c !in cls
      ensures IndLink(c) in st2.cells && st2.cells[IndLink(c)] == st0.cells[IndLink(c)]
    {
      assert IndLink(c) !in AllLinks(cls) && IndLink(c) !in IndLinks(cls);
    }
  }

  /** Block k has new contents, and only clauses in `touched` changed: all is right if block k is. */
  lemma PlacedFits(hash: Hash, st: Store, st': Store, layout: seq<Block>, k: nat, cls': seq<nat>, touched: seq<nat>)
    requires LayoutRight(hash, st, layout) && k < |layout| && BlockRight(hash, st', Block(layout[k].sob, cls'))
    requires OnlyFor(layout, k, touched) && forall x :: x in cls' ==> x in touched
    requires Untouched(st, st', layout[k].sob, touched)
    requires PredHdr in st'.hdrs && st'.hdrs[PredHdr] == st.hdrs[PredHdr]
    requires SobCellsKept(st, st')
    ensures LayoutRight(hash, st', layout[k := Block(layout[k].sob, cls')])
  {
    var layout' := layout[k := Block(layout[k].sob, cls')];
    PlacedLinks(hash, st, st', layout, layout');
    forall i | 0 <= i < |layout'|
      ensures BlockRight(hash, st', layout'[i])
    {
      if i != k { OtherBlockKept(hash, st, st', layout, k, touched, i); }
    }
    ApartPlaced(layout, k, cls', touched);
  }

  lemma PlacedLinks(hash: Hash, st: Store, st': Store, layout: seq<Block>, layout': seq<Block>)
    requires LayoutRight(hash, st, layout) && |layout'| == |layout| && forall i :: 0 <= i < |layout| ==> layout'[i].sob == layout[i].sob
    requires SobCellsKept(st, st')
    ensures SobLinks(layout') == SobLinks(layout) && Chain(st'.cells, true, SobLinks(layout'), PredHdr, PredHdr)
  {
    assert Open(0);
    assert SobLinks(layout') == SobLinks(layout);
    SobLinkCells(hash, st, layout);
    ChainFrame(st.cells, st'.cells, true, SobLinks(layout), PredHdr, PredHdr);
  }

  /** The clauses lie in no block but the k-th. */
  ghost predicate OnlyFor(layout: seq<Block>, k: nat, touched: seq<nat>) {
    forall o {:trigger Open(o)} :: Open(o) ==> forall x, i {:trigger x in layout[i].cls, x in touched} :: x in touched && 0 <= i < |layout| && i != k ==> x !in layout[i].cls
  }

  lemma OnlyForBlock(layout: seq<Block>, k: nat, c: nat)
    requires Apart(layout) && k < |layout| && forall i :: 0 <= i < |layout| && i != k ==> c !in layout[i].cls
    ensures OnlyFor(layout, k, layout[k].cls + [c])
  {
    forall x, i | x in layout[k].cls + [c] && 0 <= i < |layout| && i != k
      ensures x !in layout[i].cls
    {
      ApartFrom(layout, k, i);
    }
  }

  lemma OnlyForItself(layout: seq<Block>, k: nat)
    requires Apart(layout) && k < |layout|
    ensures OnlyFor(layout, k, layout[k].cls)
  {
    forall x, i | x in layout[k].cls && 0 <= i < |layout| && i != k
      ensures x !in layout[i].cls
    {
      ApartFrom(layout, k, i);
    }
  }

  lemma OtherBlockKept(hash: Hash, st: Store, st': Store, layout: seq<Block>, k: nat, touched: seq<nat>, i: nat)
    requires LayoutRight(hash, st, layout) && k < |layout| && i < |layout| && i != k
    requires Untouched(st, st', layout[k].sob, touched) && OnlyFor(layout, k, touched)
    ensures BlockRight(hash, st', layout[i])
  {
    assert Open(0);
    assert BlockRight(hash, st, layout[i]);
    OtherSob(st, layout, i, k);
    BlockKept(hash, st, st', layout[i], layout[k].sob, touched);
  }

  lemma ApartPlaced(layout: seq<Block>, k: nat, cls': seq<nat>, touched: seq<nat>)
    requires Apart(layout) && k < |layout| && OnlyFor(layout, k, touched) && forall x :: x in cls' ==> x in touched
    ensures Apart(layout[k := Block(layout[k].sob, cls')])
  {
    assert Open(0);
    var layout' := layout[k := Block(layout[k].sob, cls')];
    forall i, j, x | 0 <= i < j < |layout'| && x in layout'[i].cls
      ensures x !in layout'[j].cls
    {
      if i != k && j != k { ApartFrom(layout, i, j); }
    }
  }

  lemma OtherSob(st: Store, layout: seq<Block>, i: nat, k: nat)
    requires Chain(st.cells, true, SobLinks(layout), PredHdr, PredHdr) && i < |layout| && k < |layout| && i != k
    ensures layout[i].sob != layout[k].sob
  {
    var s := SobLinks(layout);
    assert s[if i < k then i else k] != s[if i < k then k else i];
  }

  lemma ApartFrom(layout: seq<Block>, i: nat, j: nat)
    requires Apart(layout) && i < |layout| && j < |layout| && i != j
    ensures forall c :: c in layout[i].cls ==> c !in layout[j].cls
  {
    assert Open(0);
    forall c | c in layout[i].cls
      ensures c !in layout[j].cls
    {
    }
  }

  /** The predicate's header names the block at the chosen end. */
  lemma EndBlock(hash: Hash, st: Store, layout: seq<Block>, atFront: bool)
    requires LayoutRight(hash, st, layout)
    ensures PredHdr in st.hdrs && (st.hdrs[PredHdr].op == Empty <==> layout == [])
    ensures layout != [] ==> var b := layout[if atFront then 0 else |layout| - 1];
              (if atFront then st.hdrs[PredHdr].first else st.hdrs[PredHdr].last) == SobLink(b.sob)
              && b.sob in st.sobs && |st.sobs[b.sob].table| > 0
  {
    if layout != [] {
      assert BlockRight(hash, st, layout[if atFront then 0 else |layout| - 1]);
    }
  }

  lemma NotPlaced(hash: Hash, st: Store, layout: seq<Block>, c: nat)
    requires LayoutRight(hash, st, layout) && c !in st.keys
    ensures forall i :: 0 <= i < |layout| ==> c !in layout[i].cls
  {
    forall i | 0 <= i < |layout|
      ensures c !in layout[i].cls
    {
      assert BlockRight(hash, st, layout[i]);
    }
  }

  lemma {:induction false} ClausesConcat(a: seq<Block>, b: seq<Block>)
    ensures Clauses(a + b) == Clauses(a) + Clauses(b)
  {
    if a == [] {
      assert a + b == b;
    } else {
      ClausesConcat(a[1..], b);
      assert (a + b)[1..] == a[1..] + b && (a + b)[0] == a[0];
    }
  }

  lemma {:induction false} ClausesAt(layout: seq<Block>, k: nat)
    requires k < |layout|
    ensures Clauses(layout) == Clauses(layout[..k]) + layout[k].cls + Clauses(layout[k + 1..])
  {
    var first := layout[..k + 1];
    assert layout == first + layout[k + 1..];
    ClausesConcat(first, layout[k + 1..]);
    ClausesLast(layout, k);
  }

  lemma {:induction false} ClausesLast(layout: seq<Block>, k: nat)
    requires k < |layout|
    ensures Clauses(layout[..k + 1]) == Clauses(layout[..k]) + layout[k].cls
  {
    assert layout[..k + 1] == layout[..k] + [layout[k]];
    ClausesConcat(layout[..k], [layout[k]]);
    ClausesOne(layout[k]);
  }

  lemma ClausesOne(b: Block)
    ensures Clauses([b]) == b.cls
  {
    assert [b][1..] == [];
  }

  lemma ClausesPlaced(layout: seq<Block>, mid: seq<Block>, layout': seq<Block>, atFront: bool, k: nat, sob: nat, c: nat)
    requires mid == layout || mid == Grown(atFront, layout, Block(sob, []))
    requires |mid| > 0 && k == (if atFront then 0 else |mid| - 1) && layout' == mid[k := Block(sob, Grown(atFront, mid[k].cls, c))]
    requires NoneEmpty(layout)
    ensures Clauses(layout') == Grown(atFront, Clauses(layout), c) && NoneEmpty(layout')
  {
    ClausesGrown(mid, atFront, k, sob, c);
    if mid != layout {
      ClausesOne(Block(sob, []));
      if atFront { ClausesConcat([Block(sob, [])], layout); } else { ClausesConcat(layout, [Block(sob, [])]); }
    }
  }

  lemma ClausesGrown(mid: seq<Block>, atFront: bool, k: nat, sob: nat, c: nat)
    requires |mid| > 0 && k == if atFront then 0 else |mid| - 1
    ensures Clauses(mid[k := Block(sob, Grown(atFront, mid[k].cls, c))]) == Grown(atFront, Clauses(mid), c)
  {
    var layout' := mid[k := Block(sob, Grown(atFront, mid[k].cls, c))];
    ClausesAt(mid, k);
    ClausesAt(layout', k);
    assert layout'[..k] == mid[..k] && layout'[k + 1..] == mid[k + 1..];
  }

  lemma AddedToTable(hash: Hash, st: Store, st': Store, atFront: bool, sob: nat, cls: seq<nat>, c: nat, h: nat)
    requires TableRight(hash, st, sob, cls) && h < |st.sobs[sob].table| && c !in cls && c in st.keys
    requires h == Slot(hash, st.keys[c], |st.sobs[sob].table|) && (st.keys[c].Unbound? ==> |st.sobs[sob].table| == 1)
    requires st'.keys == st.keys && sob in st'.sobs && |st'.sobs[sob].table| == |st.sobs[sob].table|
    requires forall k :: 0 <= k < |st.sobs[sob].table| && k != h ==> st'.sobs[sob].table[k] == st.sobs[sob].table[k]
    requires var m := Members(hash, st.keys, cls, |st.sobs[sob].table|, h);
      && OnlyChanged(st.cells, st'.cells, IndLinks(m) + [IndLink(c)])
      && st'.sobs[sob].table[h] == IndLink(Grown(atFront, m, c)[0])
      && Chain(st'.cells, false, IndLinks(Grown(atFront, m, c)), Bucket(sob, h), SobHdr(sob))
      && st'.sobs[sob].nonempty == st.sobs[sob].nonempty + if m == [] then 1 else 0
    ensures TableRight(hash, st', sob, Grown(atFront, cls, c))
  {
    var size, cls' := |st.sobs[sob].table|, Grown(atFront, cls, c);
    var m := Members(hash, st.keys, cls, size, h);
    forall k: nat
      ensures Members(hash, st.keys, cls', size, k) == if k == h then Grown(atFront, m, c) else Members(hash, st.keys, cls, size, k)
    {
      MembersGrown(hash, st.keys, atFront, cls, c, size, k);
    }
    MembersGrown(hash, st.keys, atFront, cls, c, size, h);
    MembersIn(hash, st.keys, cls, size, h);
    assert IndLinks(m + [c]) == IndLinks(m) + [IndLink(c)];
    OtherMembersKept(hash, st, st', sob, cls, m + [c], h);
    TableChanged(hash, st, st', sob, cls, cls', h);
  }

  /** The links of other buckets are not among those that changed. */
  lemma OtherMembersKept(hash: Hash, st: Store, st': Store, sob: nat, cls: seq<nat>, changed: seq<nat>, h: nat)
    requires TableRight(hash, st, sob, cls) && OnlyChanged(st.cells, st'.cells, IndLinks(changed))
    requires forall x :: x in changed && x in cls ==> Slot(hash, st.keys[x], |st.sobs[sob].table|) == h
    ensures forall x :: x in cls && Slot(hash, st.keys[x], |st.sobs[sob].table|) != h ==>
              IndLink(x) in st.cells && IndLink(x) in st'.cells && st'.cells[IndLink(x)] == st.cells[IndLink(x)]
  {
    forall x | x in cls && Slot(hash, st.keys[x], |st.sobs[sob].table|) != h
      ensures IndLink(x) in st.cells && IndLink(x) in st'.cells && st'.cells[IndLink(x)] == st.cells[IndLink(x)]
    {
      MemberCell(hash, st, sob, cls, x);
      assert IndLink(x) !in IndLinks(changed);
    }
  }

  lemma AddedCells(hash: Hash, st: Store, st': Store, sob: nat, cls: seq<nat>, c: nat, h: nat)
    requires TableRight(hash, st, sob, cls)
    requires OnlyChanged(st.cells, st'.cells, IndLinks(Members(hash, st.keys, cls, |st.sobs[sob].table|, h)) + [IndLink(c)])
    ensures OnlyChanged(st.cells, st'.cells, IndLinks(cls + [c]))
  {
    var m := Members(hash, st.keys, cls, |st.sobs[sob].table|, h);
    MembersIn(hash, st.keys, cls, |st.sobs[sob].table|, h);
    LinksOf(m, cls + [c]);
    assert IndLinks(cls + [c])[|cls|] == IndLink(c);
  }

  lemma LinksOf(m: seq<nat>, cls: seq<nat>)
    requires forall x :: x in m ==> x in cls
    ensures forall a :: a in IndLinks(m) ==> a in IndLinks(cls)
  {
    forall a | a in IndLinks(m)
      ensures a in IndLinks(cls)
    {
      var i :| 0 <= i < |m| && IndLinks(m)[i] == a;
      assert m[i] in m;
      var j :| 0 <= j < |cls| && cls[j] == m[i];
      assert IndLinks(cls)[j] == a;
    }
  }

  lemma MemberCell(hash: Hash, st: Store, sob: nat, cls: seq<nat>, c: nat)
    requires TableRight(hash, st, sob, cls) && c in cls
    ensures IndLink(c) in st.cells
  {
    var size := |st.sobs[sob].table|;
    var h := Slot(hash, st.keys[c], size);
    assert BucketRight(hash, st, sob, cls, h);
    MembersIn(hash, st.keys, cls, size, h);
    var m := Members(hash, st.keys, cls, size, h);
    var j :| 0 <= j < |m| && m[j] == c;
    assert Linked(st.cells, false, IndLinks(m), Bucket(sob, h), SobHdr(sob), j);
  }

  // ----- the index agrees with the list of clauses -----

  /** a is b with some elements left out. */
  ghost predicate Subsequence(a: seq<nat>, b: seq<nat>) {
    if a == [] then true
    else b != [] && if a[0] == b[0] then Subsequence(a[1..], b[1..]) else Subsequence(a, b[1..])
  }

  lemma {:induction false} SubsequenceSkip(a: seq<nat>, b: seq<nat>)
    requires b != [] && Subsequence(a, b[1..])
    ensures Subsequence(a, b)
    decreases |b|, 0
  {
    if a != [] && a[0] == b[0] {
      SubsequenceTail(a, b[1..]);
    }
  }

  lemma {:induction false} SubsequenceTail(a: seq<nat>, b: seq<nat>)
    requires a != [] && Subsequence(a, b)
    ensures Subsequence(a[1..], b)
    decreases |b|, 1
  {
    if a[0] == b[0] {
      SubsequenceSkip(a[1..], b);
    } else {
      SubsequenceTail(a, b[1..]);
      SubsequenceSkip(a[1..], b);
    }
  }

  lemma {:induction false} SubsequenceConcat(a: seq<nat>, b: seq<nat>, c: seq<nat>, d: seq<nat>)
    requires Subsequence(a, b) && Subsequence(c, d)
    ensures Subsequence(a + c, b + d)
    decreases |b|
  {
    if b == [] {
      assert a + c == c && b + d == d;
    } else {
      assert (b + d)[1..] == b[1..] + d && (b + d)[0] == b[0];
      if a != [] && a[0] == b[0] {
        SubsequenceConcat(a[1..], b[1..], c, d);
        assert (a + c)[1..] == a[1..] + c && (a + c)[0] == a[0];
      } else {
        SubsequenceConcat(a, b[1..], c, d);
        SubsequenceSkip(a + c, b + d);
      }
    }
  }

  lemma {:induction false} MembersSubsequence(hash: Hash, keys: map<nat, Arg>, cls: seq<nat>, size: nat, h: nat)
    requires size > 0 && Keyed(keys, cls)
    ensures Subsequence(Members(hash, keys, cls, size, h), cls)
  {
    if cls != [] {
      MembersSubsequence(hash, keys, cls[1..], size, h);
      var m := Members(hash, keys, cls[1..], size, h);
      if Slot(hash, keys[cls[0]], size) != h {
        SubsequenceSkip(m, cls);
        assert Members(hash, keys, cls, size, h) == m;
      } else {
        assert Members(hash, keys, cls, size, h)[1..] == m;
      }
    }
  }

  lemma {:induction false} SubsequenceRefl(a: seq<nat>)
    ensures Subsequence(a, a)
  {
    if a != [] { SubsequenceRefl(a[1..]); }
  }

  /** May c's indexed argument match the goal's? */
  predicate MayMatch(keys: map<nat, Arg>, c: nat, goal: Arg)
    requires c in keys
  {
    goal.Unbound? || keys[c].Unbound? || keys[c] == goal
  }

  lemma BlockVisited(hash: Hash, st: Store, b: Block, goal: Arg, c: nat)
    requires BlockRight(hash, st, b) && c in b.cls && MayMatch(st.keys, c, goal)
    ensures c in VisitBlock(hash, st, b, goal)
  {
    if goal.Bound? {
      var size := |st.sobs[b.sob].table|;
      MembersIn(hash, st.keys, b.cls, size, Slot(hash, goal, size));
      if st.keys[c].Unbound? { assert size == 1 && Slot(hash, goal, size) == 0; }
    }
  }

  /** Clause c of block b shares the goal's hash value, unless the goal or the table tells nothing apart. */
  ghost predicate Tried(hash: Hash, st: Store, b: Block, goal: Arg, c: nat) {
    && c in b.cls && c in st.keys && b.sob in st.sobs && |st.sobs[b.sob].table| > 0
    && var (key, size) := (st.keys[c], |st.sobs[b.sob].table|);
      goal.Unbound? || size == 1 || (key.Bound? && hash(key.term) % size == hash(goal.term) % size)
  }

  lemma BlockTried(hash: Hash, st: Store, b: Block, goal: Arg, c: nat)
    requires BlockRight(hash, st, b)
    ensures c in VisitBlock(hash, st, b, goal) <==> Tried(hash, st, b, goal, c)
  {
    var size := |st.sobs[b.sob].table|;
    if goal.Bound? {
      MembersIn(hash, st.keys, b.cls, size, Slot(hash, goal, size));
      if size == 1 && c in b.cls { assert Slot(hash, st.keys[c], 1) == 0 == Slot(hash, goal, 1); }
    }
  }

  /** Exactly the clauses of the goal's bucket are tried, in each block; in tables of one bucket, all. */
  lemma {:induction false} VisitIff(hash: Hash, st: Store, layout: seq<Block>, goal: Arg, c: nat)
    requires forall i {:trigger BlockRight(hash, st, layout[i])} :: 0 <= i < |layout| ==> BlockRight(hash, st, layout[i])
    ensures c in Visit(hash, st, layout, goal) <==> exists k :: 0 <= k < |layout| && Tried(hash, st, layout[k], goal, c)
  {
    if layout != [] {
      var rest := layout[1..];
      assert BlockRight(hash, st, layout[0]);
      forall i | 0 <= i < |rest|
        ensures BlockRight(hash, st, rest[i])
      {
        assert BlockRight(hash, st, layout[i + 1]);
      }
      BlockTried(hash, st, layout[0], goal, c);
      VisitIff(hash, st, rest, goal, c);
      assert forall k :: 0 <= k < |rest| ==> rest[k] == layout[k + 1];
    }
  }

  lemma {:induction false} VisitAgrees(hash: Hash, st: Store, layout: seq<Block>, goal: Arg)
    requires forall i {:trigger BlockRight(hash, st, layout[i])} :: 0 <= i < |layout| ==> BlockRight(hash, st, layout[i])
    ensures Keyed(st.keys, Clauses(layout)) && Subsequence(Visit(hash, st, layout, goal), Clauses(layout))
    ensures forall c :: c in Clauses(layout) && MayMatch(st.keys, c, goal) ==> c in Visit(hash, st, layout, goal)
  {
    if layout != [] {
      var b := layout[0];
      assert BlockRight(hash, st, layout[0]);
      forall i | 0 <= i < |layout[1..]|
        ensures BlockRight(hash, st, layout[1..][i])
      {
        assert BlockRight(hash, st, layout[i + 1]);
      }
      VisitAgrees(hash, st, layout[1..], goal);
      if goal.Unbound? {
        SubsequenceRefl(b.cls);
      } else {
        MembersSubsequence(hash, st.keys, b.cls, |st.sobs[b.sob].table|, Slot(hash, goal, |st.sobs[b.sob].table|));
      }
      SubsequenceConcat(VisitBlock(hash, st, b, goal), b.cls, Visit(hash, st, layout[1..], goal), Clauses(layout[1..]));
      forall c | c in b.cls && MayMatch(st.keys, c, goal)
        ensures c in VisitBlock(hash, st, b, goal)
      {
        BlockVisited(hash, st, b, goal, c);
      }
    }
  }

  /** A list without the first c in it. */
  function Minus(s: seq<nat>, c: nat): seq<nat> {
    if s == [] then [] else if s[0] == c then s[1..] else [s[0]] + Minus(s[1..], c)
  }

  lemma MinusFirst(x: nat, s: seq<nat>, c: nat)
    ensures Minus([x] + s, c) == if x == c then s else [x] + Minus(s, c)
  {
    assert ([x] + s)[1..] == s;
  }

  lemma {:induction false} MinusConcat(a: seq<nat>, b: seq<nat>, c: nat)
    ensures Minus(a + b, c) == if c in a then Minus(a, c) + b else a + Minus(b, c)
  {
    if a == [] {
      assert a + b == b;
      assert [] + Minus(b, c) == Minus(b, c);
    } else {
      var x, t := a[0], a[1..];
      assert a == [x] + t;
      assert a + b == [x] + (t + b);
      MinusFirst(x, t + b, c);
      MinusFirst(x, t, c);
      if x != c {
        MinusConcat(t, b, c);
        Prepended(x, Minus(t, c), t, b, Minus(b, c));
      }
    }
  }

  lemma Prepended(x: nat, m: seq<nat>, t: seq<nat>, b: seq<nat>, n: seq<nat>)
    ensures [x] + (m + b) == ([x] + m) + b && [x] + (t + n) == ([x] + t) + n
  {
  }

  lemma {:induction false} MinusDropped(s: seq<nat>, i: nat)
    requires i < |s| && s[i] !in s[..i]
    ensures Minus(s, s[i]) == Dropped(s, i)
  {
    if i > 0 {
      var t := s[1..];
      assert s[0] == s[..i][0];
      assert forall x :: x in t[..i - 1] ==> x in s[..i];
      MinusDropped(t, i - 1);
      assert Dropped(s, i) == [s[0]] + Dropped(t, i - 1);
    }
  }

  lemma {:induction false} ClauseAt(layout: seq<Block>, c: nat) returns (k: nat, i: nat)
    requires c in Clauses(layout)
    ensures k < |layout| && i < |layout[k].cls| && layout[k].cls[i] == c
    ensures c !in Clauses(layout[..k])
  {
    if c in layout[0].cls {
      k := 0;
      i :| 0 <= i < |layout[0].cls| && layout[0].cls[i] == c;
    } else {
      k, i := ClauseAt(layout[1..], c);
      assert layout[..k + 1][1..] == layout[1..][..k];
      k := k + 1;
    }
  }

  lemma MinusMiddle(p: seq<nat>, cls: seq<nat>, s: seq<nat>, i: nat)
    requires i < |cls| && cls[i] !in p && cls[i] !in cls[..i]
    ensures Minus(p + cls + s, cls[i]) == p + Dropped(cls, i) + s
  {
    var c := cls[i];
    assert c in cls && c in p + cls;
    MinusConcat(p + cls, s, c);
    MinusConcat(p, cls, c);
    MinusDropped(cls, i);
  }

  /** Emptying a block or taking it out is the same for the clauses. */
  lemma ClausesWithout(layout: seq<Block>, k: nat, b: Block)
    requires k < |layout| && b.cls == []
    ensures Clauses(Dropped(layout, k)) == Clauses(layout[k := b])
  {
    var p, s := layout[..k], layout[k + 1..];
    var layout' := layout[k := b];
    ClausesAt(layout', k);
    assert layout'[..k] == p && layout'[k + 1..] == s;
    ClausesConcat(p, s);
    assert Clauses(p) + [] == Clauses(p);
  }

  lemma {:induction false} ClausesDropped(hash: Hash, st: Store, layout: seq<Block>, k: nat, i: nat)
    requires LayoutRight(hash, st, layout) && k < |layout| && i < |layout[k].cls| && layout[k].cls[i] !in Clauses(layout[..k])
    ensures Clauses(layout[k := Block(layout[k].sob, Dropped(layout[k].cls, i))]) == Minus(Clauses(layout), layout[k].cls[i])
    ensures |layout[k].cls| == 1 ==> Clauses(Dropped(layout, k)) == Minus(Clauses(layout), layout[k].cls[i])
  {
    assert BlockRight(hash, st, layout[k]);
    OnlyOnce(st, layout[k].sob, layout[k].cls, i);
    ClausesMinus(layout, k, i);
    if |layout[k].cls| == 1 { ClausesWithout(layout, k, Block(layout[k].sob, Dropped(layout[k].cls, i))); }
  }

  lemma ClausesMinus(layout: seq<Block>, k: nat, i: nat)
    requires k < |layout| && i < |layout[k].cls| && layout[k].cls[i] !in Clauses(layout[..k]) && layout[k].cls[i] !in layout[k].cls[..i]
    ensures Clauses(layout[k := Block(layout[k].sob, Dropped(layout[k].cls, i))]) == Minus(Clauses(layout), layout[k].cls[i])
  {
    var layout' := layout[k := Block(layout[k].sob, Dropped(layout[k].cls, i))];
    ClausesAt(layout, k);
    ClausesAt(layout', k);
    assert layout'[..k] == layout[..k] && layout'[k + 1..] == layout[k + 1..];
    MinusMiddle(Clauses(layout[..k]), layout[k].cls, Clauses(layout[k + 1..]), i);
  }

  // ----- whole histories -----

  datatype Event =
    | Asserta(key: Arg, tabSize: nat)
    | Assertz(key: Arg, tabSize: nat)
    | Retract(clause: nat)

  /** The plain list after a history; the n-th event's clause is number n. */
  ghost function Plain(events: seq<Event>): seq<nat> {
    if events == [] then [] else
      var n := |events| - 1;
      var before := Plain(events[..n]);
      match events[n]
      case Asserta(_, _) => [n] + before
      case Assertz(_, _) => before + [n]
      case Retract(c) => Minus(before, c)
  }

  lemma PlainNext(events: seq<Event>, n: nat)
    requires n < |events|
    ensures var before := Plain(events[..n]);
      Plain(events[..n + 1]) == match events[n] { case Asserta(_, _) => [n] + before case Assertz(_, _) => before + [n] case Retract(c) => Minus(before, c) }
  {
    assert events[..n + 1][..n] == events[..n];
  }

  lemma {:induction false} MinusAbsent(s: seq<nat>, c: nat)
    requires c !in s
    ensures Minus(s, c) == s
  {
    if s != [] {
      MinusAbsent(s[1..], c);
      assert s == [s[0]] + s[1..];
    }
  }

  /** The clauses are those of the history, each with the argument it was added with. */
  ghost predicate KeysOf(events: seq<Event>, keys: map<nat, Arg>) {
    forall c :: c in keys ==> c < |events| && !events[c].Retract? && keys[c] == events[c].key
  }

  /** After n events. */
  ghost predicate AtEvent(hash: Hash, st: Store, events: seq<Event>, n: nat, plain: seq<nat>, layout: seq<Block>) {
    && n <= |events| && LayoutRight(hash, st, layout) && NoneEmpty(layout) && Clauses(layout) == plain == Plain(events[..n])
    && KeysOf(events, st.keys) && (forall c :: c in st.keys ==> c < n) && forall s :: s in st.sobs ==> s < n
  }

  /** One event, on the index and on the list. */
  method Enact(p: DynPred, events: seq<Event>, n: nat, plain: seq<nat>, ghost layout: seq<Block>) returns (plain': seq<nat>, ghost layout': seq<Block>)
    requires n < |events| && AtEvent(p.hash, p.st, events, n, plain, layout)
    modifies p
    ensures AtEvent(p.hash, p.st, events, n + 1, plain', layout')
  {
    PlainNext(events, n);
    plain', layout' := plain, layout;
    match events[n]
    case Asserta(key, tabSize) =>
      layout' := p.AddClause(true, n, key, tabSize, n, layout);
      plain' := [n] + plain;
    case Assertz(key, tabSize) =>
      layout' := p.AddClause(false, n, key, tabSize, n, layout);
      plain' := plain + [n];
    case Retract(c) =>
      if c in plain {
        ghost var k, i := ClauseAt(layout, c);
        ClausesDropped(p.hash, p.st, layout, k, i);
        layout' := p.DeleteClause(c, layout, k, i);
        plain' := Minus(plain, c);
      } else {
        MinusAbsent(plain, c);
      }
  }

  /**
   Any history of additions and removals leaves an index that agrees with the plain list
   of clauses: lookups visit it in order, and miss no clause that may match.
   */
  method Replay(hash: Hash, events: seq<Event>) returns (p: DynPred, plain: seq<nat>, ghost layout: seq<Block>)
    ensures p.hash == hash && LayoutRight(hash, p.st, layout) && NoneEmpty(layout)
    ensures Clauses(layout) == plain == Plain(events) && KeysOf(events, p.st.keys)
    ensures Keyed(p.st.keys, plain) && forall goal :: Subsequence(Visit(hash, p.st, layout, goal), plain)
    ensures forall goal, c :: c in plain && MayMatch(p.st.keys, c, goal) ==> c in Visit(hash, p.st, layout, goal)
  {
    p := new DynPred(hash);
    plain, layout := [], [];
    for n := 0 to |events|
      invariant fresh(p) && p.hash == hash && AtEvent(hash, p.st, events, n, plain, layout)
    {
      plain, layout := Enact(p, events, n, plain, layout);
    }
    assert events[..|events|] == events;
    VisitAgrees(hash, p.st, layout, Unbound);
    forall goal
      ensures Subsequence(Visit(hash, p.st, layout, goal), plain)
      ensures forall c :: c in plain && MayMatch(p.st.keys, c, goal) ==> c in Visit(hash, p.st, layout, goal)
    {
      VisitAgrees(hash, p.st, layout, goal);
    }
  }
}
