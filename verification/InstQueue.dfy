/**
 The clause compiler's work queue: a deque in a circular buffer. A slot is left
 unused to tell empty from full, so filling the last one is the overflow that makes
 the compiler give up.
 */
module InstQueues {
  import opened Hiding

  const INST_QUEUE_SIZE := 256
  const START := 10

  /** The slot after i, around the end of the buffer. */
  function Next(i: int): int {
    if i == INST_QUEUE_SIZE - 1 then 0 else i + 1
  }

  class InstQueue<T(0)> {
    const items: array<T>
    var top: int
    var bottom: int
    /** How many entries were added at the bottom since last reset. */
    var added: int

    /** The queued items, from the bottom to the top. */
    ghost var contents: seq<T>

    ghost predicate Valid()
      reads this, items
    {
      forall k {:trigger Open(k)} :: Open(k) ==> Wellformed()
    }

    ghost predicate Wellformed()
      reads this, items
    {
      && items.Length == INST_QUEUE_SIZE && 0 <= top < INST_QUEUE_SIZE && 0 <= bottom < INST_QUEUE_SIZE
      && contents == if bottom <= top then items[bottom..top] else items[bottom..] + items[..top]
    }

    constructor ()
      ensures Valid() && fresh(items) && contents == [] && top == bottom == START
    {
      items := new T[INST_QUEUE_SIZE];
      top, bottom, added := START, START, 0;
      contents := [];
    }

    method Empty() returns (b: bool)
      requires Valid()
      ensures b <==> contents == []
    {
      assert Open(0);
      b := top == bottom;
    }

    method Push(x: T) returns (overflow: bool)
      requires Valid()
      modifies this`top, this`contents, items
      ensures top == Next(old(top))
      ensures overflow <==> |old(contents)| == INST_QUEUE_SIZE - 1
      ensures !overflow ==> Valid() && contents == old(contents) + [x]
    {
      assert Open(0);
      items[top] := x;
      top := (top + 1) % INST_QUEUE_SIZE;
      overflow := top == bottom;
      contents := contents + [x];
    }

    method Pop() returns (x: T)
      requires Valid() && contents != []
      modifies this`top, this`contents
      ensures Valid() && old(contents) == contents + [x]
    {
      assert Open(0);
      if top == 0 { top := INST_QUEUE_SIZE; }
      top := top - 1;
      x := items[top];
      contents := contents[..|contents| - 1];
    }

    method Rem() returns (x: T)
      requires Valid() && contents != []
      modifies this`bottom, this`contents
      ensures Valid() && x == old(contents)[0] && contents == old(contents)[1..] && bottom == Next(old(bottom))
    {
      assert Open(0);
      x := items[bottom];
      assert contents == [x] + contents[1..];
      bottom := (bottom + 1) % INST_QUEUE_SIZE;
      contents := contents[1..];
      assert bottom == Next(old(bottom));
    }

    method Add(x: T) returns (overflow: bool)
      requires Valid()
      modifies this`bottom, this`added, this`contents, items
      ensures overflow <==> |old(contents)| == INST_QUEUE_SIZE - 1
      ensures !overflow ==> Valid() && contents == [x] + old(contents) && added == old(added) + 1
    {
      assert Open(0);
      if bottom == 0 { bottom := INST_QUEUE_SIZE; }
      bottom := bottom - 1;
      overflow := top == bottom;
      if !overflow {
        items[bottom] := x;
        added := added + 1;
        contents := [x] + contents;
      }
    }

    /** Starts a new group of additions. */
    method ResetAdded()
      requires Valid()
      modifies this`added
      ensures Valid() && added == 0
    {
      assert Open(0);
      added := 0;
    }

    /** The number of queued items always leaves one slot unused. */
    lemma Fits()
      requires Valid()
      ensures |contents| <= INST_QUEUE_SIZE - 1
      ensures 0 <= top < INST_QUEUE_SIZE && 0 <= bottom < INST_QUEUE_SIZE
      ensures |contents| == if bottom <= top then top - bottom else top - bottom + INST_QUEUE_SIZE
    {
      assert Open(0);
    }

    /** Moves the entries added since the last reset from the bottom to the top, reversing them. */
    method Rotate()
      requires Valid() && 0 <= added <= |contents|
      modifies this, items
      ensures Valid() && contents == Rotated(old(contents), old(added))
    {
      ghost var was, k := contents, 0;
      while added > 0
        invariant Valid() && 0 <= k <= |was| && added == old(added) - k && 0 <= added
        invariant contents == Rotated(was, k)
      {
        added := added - 1;
        RotatedNext(was, k);
        Fits();
        var x := Rem();
        var overflow := Push(x);
        k := k + 1;
      }
    }
  }

  /** The first k entries moved to the end. */
  ghost function Rotated<T>(s: seq<T>, k: int): seq<T>
    requires 0 <= k <= |s|
  {
    s[k..] + s[..k]
  }

  lemma RotatedNext<T>(s: seq<T>, k: int)
    requires 0 <= k < |s|
    ensures Rotated(s, k)[0] == s[k] && Rotated(s, k)[1..] + [s[k]] == Rotated(s, k + 1)
  {
  }
}
