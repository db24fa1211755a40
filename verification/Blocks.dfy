/**
 How the clauses of a dynamic predicate with one indexed argument lie in memory. Index
 blocks form one chain; in each block all clauses form a chain, and each hash bucket
 forms a chain of those of the block's clauses that hash to it. A clause whose indexed
 argument is a variable lies in a block with a table of one slot.
 */
module Blocks {
  import opened Chains

  /** The indexed argument of a clause or goal. */
  datatype Arg = Unbound | Bound(term: int)

  datatype HdrOp = Empty | Jump

  /** What heads a chain of blocks, or a block's chain of all its clauses. */
  datatype Hdr = Hdr(op: HdrOp, first: Addr, last: Addr)

  datatype Sob = Sob(nonempty: int, table: seq<Addr>)

  datatype Store = Store(cells: Cells, hdrs: map<Addr, Hdr>, sobs: map<nat, Sob>, keys: map<nat, Arg>)

  /** Terms may share a hash value; equal terms do. */
  type Hash = int -> nat

  /** A block and its clauses, in order. */
  datatype Block = Block(sob: nat, cls: seq<nat>)

  function Slot(hash: Hash, k: Arg, size: nat): (h: nat)
    requires size > 0
    ensures h < size
  {
    if k.Unbound? then 0 else hash(k.term) % size
  }

  // ----- the clauses of one bucket -----

  ghost predicate Keyed(keys: map<nat, Arg>, cls: seq<nat>) {
    forall c :: c in cls ==> c in keys
  }

  /** Those of the clauses that hash to slot h, in order. */
  ghost function Members(hash: Hash, keys: map<nat, Arg>, cls: seq<nat>, size: nat, h: nat): (m: seq<nat>)
    requires size > 0 && Keyed(keys, cls)
  {
    if cls == [] then [] else
      (if Slot(hash, keys[cls[0]], size) == h then [cls[0]] else []) + Members(hash, keys, cls[1..], size, h)
  }

  lemma MembersCons(hash: Hash, keys: map<nat, Arg>, c: nat, cls: seq<nat>, size: nat, h: nat)
    requires size > 0 && c in keys && Keyed(keys, cls)
    ensures Keyed(keys, [c] + cls)
    ensures Members(hash, keys, [c] + cls, size, h)
            == (if Slot(hash, keys[c], size) == h then [c] else []) + Members(hash, keys, cls, size, h)
  {
    assert ([c] + cls)[1..] == cls;
  }

  lemma {:induction false} MembersConcat(hash: Hash, keys: map<nat, Arg>, a: seq<nat>, b: seq<nat>, size: nat, h: nat)
    requires size > 0 && Keyed(keys, a) && Keyed(keys, b)
    ensures Members(hash, keys, a + b, size, h) == Members(hash, keys, a, size, h) + Members(hash, keys, b, size, h)
  {
    if a == [] {
      assert a + b == b;
      assert Members(hash, keys, a, size, h) + Members(hash, keys, b, size, h) == Members(hash, keys, b, size, h);
    } else {
      var c, rest := a[0], a[1..];
      assert a == [c] + rest && a + b == [c] + (rest + b);
      MembersConcat(hash, keys, rest, b, size, h);
      MembersCons(hash, keys, c, rest, size, h);
      MembersCons(hash, keys, c, rest + b, size, h);
      assert Keyed(keys, rest + b);
    }
  }

  lemma MembersOne(hash: Hash, keys: map<nat, Arg>, c: nat, size: nat, h: nat)
    requires size > 0 && c in keys
    ensures Members(hash, keys, [c], size, h) == if Slot(hash, keys[c], size) == h then [c] else []
  {
    assert [c][1..] == [];
  }

  lemma {:induction false} MembersIn(hash: Hash, keys: map<nat, Arg>, cls: seq<nat>, size: nat, h: nat)
    requires size > 0 && Keyed(keys, cls)
    ensures forall c :: c in Members(hash, keys, cls, size, h) <==> c in cls && Slot(hash, keys[c], size) == h
  {
    if cls != [] { MembersIn(hash, keys, cls[1..], size, h); }
  }

  lemma {:induction false} MembersSameKeys(hash: Hash, keys: map<nat, Arg>, keys': map<nat, Arg>, cls: seq<nat>, size: nat, h: nat)
    requires size > 0 && Keyed(keys, cls) && forall c :: c in cls ==> c in keys' && keys'[c] == keys[c]
    ensures Members(hash, keys', cls, size, h) == Members(hash, keys, cls, size, h)
  {
    if cls != [] { MembersSameKeys(hash, keys, keys', cls[1..], size, h); }
  }

  /** How many of the first n slots have members. */
  ghost function Filled(hash: Hash, keys: map<nat, Arg>, cls: seq<nat>, size: nat, n: nat): nat
    requires size > 0 && Keyed(keys, cls)
  {
    if n == 0 then 0 else
      Filled(hash, keys, cls, size, n - 1) + if Members(hash, keys, cls, size, n - 1) != [] then 1 else 0
  }

  /** Changing whether slot h has members changes the count by one. */
  lemma {:induction false} FilledChange(hash: Hash, keys: map<nat, Arg>, cls: seq<nat>, cls': seq<nat>, size: nat, n: nat, h: nat)
    requires size > 0 && Keyed(keys, cls) && Keyed(keys, cls')
    requires forall k: nat :: k != h ==> (Members(hash, keys, cls', size, k) == [] <==> Members(hash, keys, cls, size, k) == [])
    ensures var before, after := Members(hash, keys, cls, size, h) != [], Members(hash, keys, cls', size, h) != [];
      Filled(hash, keys, cls', size, n) == Filled(hash, keys, cls, size, n)
        + if h < n && !before && after then 1 else if h < n && before && !after then -1 else 0
  {
    if n > 0 { FilledChange(hash, keys, cls, cls', size, n - 1, h); }
  }

  lemma {:induction false} FilledPositive(hash: Hash, keys: map<nat, Arg>, cls: seq<nat>, size: nat, n: nat, h: nat)
    requires size > 0 && Keyed(keys, cls) && h < n && Members(hash, keys, cls, size, h) != []
    ensures Filled(hash, keys, cls, size, n) > 0
  {
    if h < n - 1 { FilledPositive(hash, keys, cls, size, n - 1, h); }
  }

  lemma {:induction false} FilledNone(hash: Hash, keys: map<nat, Arg>, size: nat, n: nat)
    requires size > 0
    ensures Filled(hash, keys, [], size, n) == 0
  {
    if n > 0 { FilledNone(hash, keys, size, n - 1); }
  }

  // ----- one block -----

  function AllLinks(cls: seq<nat>): (s: seq<Addr>)
    ensures |s| == |cls| && forall i :: 0 <= i < |s| ==> s[i] == AllLink(cls[i])
  {
    seq(|cls|, i requires 0 <= i < |cls| => AllLink(cls[i]))
  }

  function IndLinks(cls: seq<nat>): (s: seq<Addr>)
    ensures |s| == |cls| && forall i :: 0 <= i < |s| ==> s[i] == IndLink(cls[i])
  {
    seq(|cls|, i requires 0 <= i < |cls| => IndLink(cls[i]))
  }

  ghost predicate HdrRight(hdrs: map<Addr, Hdr>, at: Addr, s: seq<Addr>) {
    at in hdrs && hdrs[at] == if s == [] then Hdr(Empty, at, at) else Hdr(Jump, s[0], s[|s| - 1])
  }

  /** The chain of all clauses of a block. */
  ghost predicate AllRight(st: Store, sob: nat, cls: seq<nat>) {
    HdrRight(st.hdrs, SobHdr(sob), AllLinks(cls)) && Chain(st.cells, false, AllLinks(cls), SobHdr(sob), SobHdr(sob))
  }

  ghost predicate BucketRight(hash: Hash, st: Store, sob: nat, cls: seq<nat>, h: nat)
    requires sob in st.sobs && h < |st.sobs[sob].table| && Keyed(st.keys, cls)
  {
    var m := Members(hash, st.keys, cls, |st.sobs[sob].table|, h);
    && st.sobs[sob].table[h] == (if m == [] then DynFail else IndLink(m[0]))
    && Chain(st.cells, false, IndLinks(m), Bucket(sob, h), SobHdr(sob))
  }

  /** The hash table of a block. */
  ghost predicate TableRight(hash: Hash, st: Store, sob: nat, cls: seq<nat>) {
    && sob in st.sobs && |st.sobs[sob].table| > 0 && Keyed(st.keys, cls)
    && (forall c :: c in cls && st.keys[c].Unbound? ==> |st.sobs[sob].table| == 1)
    && (forall h {:trigger BucketRight(hash, st, sob, cls, h)} :: 0 <= h < |st.sobs[sob].table| ==> BucketRight(hash, st, sob, cls, h))
    && st.sobs[sob].nonempty == Filled(hash, st.keys, cls, |st.sobs[sob].table|, |st.sobs[sob].table|)
  }

  ghost predicate BlockRight(hash: Hash, st: Store, b: Block) {
    AllRight(st, b.sob, b.cls) && TableRight(hash, st, b.sob, b.cls)
  }

  /** A chain does not notice changes elsewhere. */
  lemma ChainFrame(cells: Cells, cells': Cells, sob: bool, s: seq<Addr>, head: Addr, end: Addr)
    requires Chain(cells, sob, s, head, end) && forall a :: a in s ==> a in cells' && (a in cells ==> cells'[a] == cells[a])
    ensures Chain(cells', sob, s, head, end)
  {
    forall i | 0 <= i < |s|
      ensures Linked(cells', sob, s, head, end, i)
    {
      assert Linked(cells, sob, s, head, end, i);
    }
  }

  lemma AllFrame(st: Store, st': Store, sob: nat, cls: seq<nat>)
    requires AllRight(st, sob, cls)
    requires SobHdr(sob) in st'.hdrs && st'.hdrs[SobHdr(sob)] == st.hdrs[SobHdr(sob)]
    requires forall c :: c in cls ==> AllLink(c) in st'.cells && (AllLink(c) in st.cells ==> st'.cells[AllLink(c)] == st.cells[AllLink(c)])
    ensures AllRight(st', sob, cls)
  {
    ChainFrame(st.cells, st'.cells, false, AllLinks(cls), SobHdr(sob), SobHdr(sob));
  }

  lemma TableFrame(hash: Hash, st: Store, st': Store, sob: nat, cls: seq<nat>)
    requires TableRight(hash, st, sob, cls)
    requires sob in st'.sobs && st'.sobs[sob] == st.sobs[sob]
    requires forall c :: c in cls ==> c in st'.keys && st'.keys[c] == st.keys[c]
    requires forall c :: c in cls ==> IndLink(c) in st'.cells && (IndLink(c) in st.cells ==> st'.cells[IndLink(c)] == st.cells[IndLink(c)])
    ensures TableRight(hash, st', sob, cls)
  {
    var size := |st.sobs[sob].table|;
    forall h | 0 <= h < size
      ensures BucketRight(hash, st', sob, cls, h)
    {
      assert BucketRight(hash, st, sob, cls, h);
      MembersIn(hash, st.keys, cls, size, h);
      BucketFrame(hash, st, st', sob, cls, h);
    }
    FilledSameKeys(hash, st.keys, st'.keys, cls, size, size);
  }

  lemma BucketFrame(hash: Hash, st: Store, st': Store, sob: nat, cls: seq<nat>, h: nat)
    requires sob in st.sobs && h < |st.sobs[sob].table| && Keyed(st.keys, cls) && BucketRight(hash, st, sob, cls, h)
    requires sob in st'.sobs && |st'.sobs[sob].table| == |st.sobs[sob].table| && st'.sobs[sob].table[h] == st.sobs[sob].table[h]
    requires forall c :: c in cls ==> c in st'.keys && st'.keys[c] == st.keys[c]
    requires forall c :: c in Members(hash, st.keys, cls, |st.sobs[sob].table|, h) ==>
               IndLink(c) in st'.cells && (IndLink(c) in st.cells ==> st'.cells[IndLink(c)] == st.cells[IndLink(c)])
    ensures BucketRight(hash, st', sob, cls, h)
  {
    var size := |st.sobs[sob].table|;
    MembersSameKeys(hash, st.keys, st'.keys, cls, size, h);
    var m := Members(hash, st.keys, cls, size, h);
    ChainFrame(st.cells, st'.cells, false, IndLinks(m), Bucket(sob, h), SobHdr(sob));
  }

  lemma {:induction false} FilledSameKeys(hash: Hash, keys: map<nat, Arg>, keys': map<nat, Arg>, cls: seq<nat>, size: nat, n: nat)
    requires size > 0 && Keyed(keys, cls) && forall c :: c in cls ==> c in keys' && keys'[c] == keys[c]
    ensures Filled(hash, keys', cls, size, n) == Filled(hash, keys, cls, size, n)
  {
    if n > 0 {
      FilledSameKeys(hash, keys, keys', cls, size, n - 1);
      MembersSameKeys(hash, keys, keys', cls, size, n - 1);
    }
  }

  // ----- one clause more or less -----

  /** Added at the front or at the back. */
  function Grown<T>(atFront: bool, s: seq<T>, x: T): seq<T> {
    if atFront then [x] + s else s + [x]
  }

  lemma MembersGrown(hash: Hash, keys: map<nat, Arg>, atFront: bool, cls: seq<nat>, c: nat, size: nat, h: nat)
    requires size > 0 && Keyed(keys, cls) && c in keys
    ensures Keyed(keys, Grown(atFront, cls, c))
    ensures var m := Members(hash, keys, cls, size, h);
      Members(hash, keys, Grown(atFront, cls, c), size, h) == if Slot(hash, keys[c], size) == h then Grown(atFront, m, c) else m
  {
    MembersOne(hash, keys, c, size, h);
    if atFront { MembersConcat(hash, keys, [c], cls, size, h); } else { MembersConcat(hash, keys, cls, [c], size, h); }
  }

  /** All clauses but the i-th. */
  ghost function Dropped<T>(s: seq<T>, i: nat): seq<T>
    requires i < |s|
  {
    s[..i] + s[i + 1..]
  }

  lemma AllLinksDropped(cls: seq<nat>, i: nat)
    requires i < |cls|
    ensures AllLinks(Dropped(cls, i)) == Without(AllLinks(cls), i)
  {
  }

  lemma IndLinksDropped(cls: seq<nat>, i: nat)
    requires i < |cls|
    ensures IndLinks(Dropped(cls, i)) == Without(IndLinks(cls), i)
  {
  }

  lemma MembersDropped(hash: Hash, keys: map<nat, Arg>, cls: seq<nat>, i: nat, size: nat, h: nat)
    requires size > 0 && Keyed(keys, cls) && i < |cls|
    ensures Keyed(keys, Dropped(cls, i)) && Keyed(keys, cls[..i])
    ensures var m, j := Members(hash, keys, cls, size, h), |Members(hash, keys, cls[..i], size, h)|;
      if Slot(hash, keys[cls[i]], size) == h
      then j < |m| && m[j] == cls[i] && Members(hash, keys, Dropped(cls, i), size, h) == Dropped(m, j)
      else Members(hash, keys, Dropped(cls, i), size, h) == m
  {
    var a, b := cls[..i], cls[i + 1..];
    assert cls == a + ([cls[i]] + b);
    MembersOne(hash, keys, cls[i], size, h);
    MembersConcat(hash, keys, [cls[i]], b, size, h);
    MembersConcat(hash, keys, a, [cls[i]] + b, size, h);
    MembersConcat(hash, keys, a, b, size, h);
  }

  /** The store differs in bucket h of one block only. */
  ghost predicate OneBucket(hash: Hash, st: Store, st': Store, sob: nat, cls: seq<nat>, h: nat)
    requires TableRight(hash, st, sob, cls)
  {
    && st'.keys == st.keys && sob in st'.sobs
    && |st'.sobs[sob].table| == |st.sobs[sob].table|
    && (forall k :: 0 <= k < |st.sobs[sob].table| && k != h ==> st'.sobs[sob].table[k] == st.sobs[sob].table[k])
    && (forall c :: c in cls && Slot(hash, st.keys[c], |st.sobs[sob].table|) != h ==>
          IndLink(c) in st.cells && IndLink(c) in st'.cells && st'.cells[IndLink(c)] == st.cells[IndLink(c)])
  }

  /** The table is right again once the bucket that changed is, and the count follows. */
  lemma TableChanged(hash: Hash, st: Store, st': Store, sob: nat, cls: seq<nat>, cls': seq<nat>, h: nat)
    requires TableRight(hash, st, sob, cls) && OneBucket(hash, st, st', sob, cls, h) && h < |st.sobs[sob].table|
    requires Keyed(st.keys, cls') && forall c :: c in cls' && st.keys[c].Unbound? ==> |st.sobs[sob].table| == 1
    requires forall k: nat :: k != h ==> Members(hash, st.keys, cls', |st.sobs[sob].table|, k) == Members(hash, st.keys, cls, |st.sobs[sob].table|, k)
    requires BucketRight(hash, st', sob, cls', h)
    requires var size := |st.sobs[sob].table|;
      var before, after := Members(hash, st.keys, cls, size, h) != [], Members(hash, st.keys, cls', size, h) != [];
      st'.sobs[sob].nonempty == st.sobs[sob].nonempty + if !before && after then 1 else if before && !after then -1 else 0
    ensures TableRight(hash, st', sob, cls')
  {
    var size := |st.sobs[sob].table|;
    forall k | 0 <= k < size
      ensures BucketRight(hash, st', sob, cls', k)
    {
      if k != h {
        assert BucketRight(hash, st, sob, cls, k);
        OtherBucket(hash, st, st', sob, cls, cls', h, k);
      }
    }
    FilledChange(hash, st.keys, cls, cls', size, size, h);
  }

  lemma OtherBucket(hash: Hash, st: Store, st': Store, sob: nat, cls: seq<nat>, cls': seq<nat>, h: nat, k: nat)
    requires TableRight(hash, st, sob, cls) && OneBucket(hash, st, st', sob, cls, h) && k < |st.sobs[sob].table| && k != h
    requires Keyed(st.keys, cls') && BucketRight(hash, st, sob, cls, k)
    requires Members(hash, st.keys, cls', |st.sobs[sob].table|, k) == Members(hash, st.keys, cls, |st.sobs[sob].table|, k)
    ensures BucketRight(hash, st', sob, cls', k)
  {
    var size := |st.sobs[sob].table|;
    var m := Members(hash, st.keys, cls, size, k);
    MembersIn(hash, st.keys, cls, size, k);
    ChainFrame(st.cells, st'.cells, false, IndLinks(m), Bucket(sob, k), SobHdr(sob));
  }
}
