/** The size-class buffer pool (mem/buffer_pool.go). */
module Pool {
  import opened Bytes

  const SIZES: seq<nat> := [0x80, 0x100, 0x200, 0x400, 0x800, 0x1000, 0x2000, 0x4000,
                            0x8000, 0x1_0000, 0x2_0000, 0x4_0000, 0x8_0000, 0x10_0000, 0x20_0000, 0x40_0000]
  const CLASSES := 16
  const SMALLEST := 0x80
  const MAX_SIZE := 0x40_0000

  /** A *[]byte: a backing array, whose length is the slice's capacity, and the length of the slice. */
  class Backing {
    const arr: array<byte>
    var len: nat

    constructor (cap: nat, len: nat)
      requires len <= cap
      ensures fresh(arr) && arr.Length == cap && this.len == len
    {
      arr := new byte[cap];
      this.len := len;
    }
  }

  lemma SizesAscend(i: nat, j: nat)
    requires i <= j < CLASSES
    ensures |SIZES| == CLASSES && SMALLEST <= SIZES[i] <= SIZES[j] <= MAX_SIZE && (i < j ==> SIZES[i] < SIZES[j])
  {
  }

  /** findPool: the class of exactly this size. */
  method FindPool(size: int) returns (i: int, exact: bool)
    ensures exact <==> size in SIZES
    ensures exact ==> 0 <= i < CLASSES && SIZES[i] == size
  {
    for j := 0 to CLASSES
      invariant size !in SIZES[..j]
    {
      if size == SIZES[j] { return j, true; }
      assert SIZES[..j + 1] == SIZES[..j] + [SIZES[j]];
    }
    assert SIZES[..CLASSES] == SIZES;
    return -1, false;
  }

  /** findBestFitPool: the smallest class that is large enough, or -1. */
  method FindBestFitPool(size: int) returns (i: int)
    ensures -1 <= i < CLASSES
    ensures i == -1 <==> size > MAX_SIZE
    ensures i >= 0 ==> size <= SIZES[i] && forall j :: 0 <= j < i ==> SIZES[j] < size
  {
    for j := 0 to CLASSES
      invariant forall k :: 0 <= k < j ==> SIZES[k] < size
    {
      if size <= SIZES[j] {
        SizesAscend(j, CLASSES - 1);
        return j;
      }
    }
    return -1;
  }

  /** findClosestPool: the largest class that is not larger, or class 0 even when that is too large. */
  method FindClosestPool(size: int) returns (i: int)
    ensures 0 <= i < CLASSES
    ensures size >= SMALLEST ==> SIZES[i] <= size && forall j :: i < j < CLASSES ==> size < SIZES[j]
    ensures size < SMALLEST ==> i == 0
  {
    var j := CLASSES - 1;
    while j >= 0
      invariant -1 <= j < CLASSES
      invariant forall k :: j < k < CLASSES ==> size < SIZES[k]
    {
      if size >= SIZES[j] {
        SizesAscend(0, j);
        return j;
      }
      j := j - 1;
    }
    return 0;
  }

  ghost function Union(pools: seq<set<Backing>>): set<Backing> {
    set i, b | 0 <= i < |pools| && b in pools[i] :: b
  }

  lemma UnionAdd(pools: seq<set<Backing>>, i: nat, b: Backing)
    requires i < |pools|
    ensures Union(pools[i := pools[i] + {b}]) == Union(pools) + {b}
  {
    var after := pools[i := pools[i] + {b}];
    forall c | c in Union(pools) + {b} ensures c in Union(after) {
      if c == b {
        assert b in after[i];
      } else {
        var j :| 0 <= j < |pools| && c in pools[j];
        assert c in after[j];
      }
    }
  }

  lemma UnionRemove(pools: seq<set<Backing>>, i: nat, b: Backing)
    requires i < |pools| && b in pools[i] && forall j :: 0 <= j < |pools| && j != i ==> b !in pools[j]
    ensures Union(pools[i := pools[i] - {b}]) == Union(pools) - {b}
  {
    var after := pools[i := pools[i] - {b}];
    forall c | c in Union(pools) - {b} ensures c in Union(after) {
      var j :| 0 <= j < |pools| && c in pools[j];
      assert c in after[j];
    }
  }

  /** A backing that Put files under a class it fits, or not at all. */
  predicate Fileable(b: Backing) { b.arr.Length == 0 || b.arr.Length >= SMALLEST }

  class BufferPool {
    var pools: seq<set<Backing>>
    /** Backings handed out by Get and not put back. */
    ghost var lent: set<Backing>

    ghost predicate Shaped()
      reads this
    {
      && |pools| == CLASSES
      && (forall i, b :: 0 <= i < CLASSES && b in pools[i] ==> b !in lent)
      && (forall i, j, b :: 0 <= i < j < CLASSES && b in pools[i] ==> b !in pools[j])
    }

    /** Everything kept in a class is as large as the class. */
    ghost predicate CapacityOk()
      reads this
      requires |pools| == CLASSES
    {
      forall i, b :: 0 <= i < CLASSES && b in pools[i] ==> b.arr.Length >= SIZES[i]
    }

    ghost predicate Valid()
      reads this
    {
      Shaped() && CapacityOk() && forall b :: b in lent ==> Fileable(b)
    }

    /** All that the pool keeps. */
    ghost function Kept(): set<Backing>
      reads this
    {
      Union(pools)
    }

    lemma LentIsNotKept(b: Backing)
      requires Shaped() && b in lent
      ensures b !in Kept()
    {
    }

    constructor ()
      ensures Valid() && lent == {} && Kept() == {}
    {
      pools := seq(CLASSES, _ => {});
      lent := {};
    }

    /** sync.Pool.Get of class i: some kept backing, or a new one of the class's size. */
    method Take(i: nat) returns (b: Backing)
      requires Valid() && i < CLASSES
      modifies this
      ensures Valid() && lent == old(lent) + {b} && b !in old(lent)
      ensures b.arr.Length >= SIZES[i]
      ensures Kept() == old(Kept()) - {b} && (b in old(Kept()) || (fresh(b) && fresh(b.arr)))
    {
      if * {
        if pools[i] != {} {
          b :| b in pools[i];
          SizesAscend(i, i);
          UnionRemove(pools, i, b);
          pools := pools[i := pools[i] - {b}];
          lent := lent + {b};
          return;
        }
      }
      SizesAscend(i, i);
      b := new Backing(SIZES[i], 0);
      lent := lent + {b};
    }

    /** Get. No reslicing goes past a capacity: the length asked for is what is returned. */
    method Get(size: int) returns (b: Backing)
      requires Valid()
      modifies this, Kept()
      ensures Valid() && lent == old(lent) + {b} && b !in old(lent)
      ensures b.len == (if size <= 0 then 0 else size) && b.len <= b.arr.Length
      ensures Kept() == old(Kept()) - {b} && (b in old(Kept()) || (fresh(b) && fresh(b.arr)))
    {
      if size <= 0 {
        b := new Backing(0, 0);
        lent := lent + {b};
        return;
      }
      var i, exact := FindPool(size);
      if !exact {
        i := FindBestFitPool(size);
        if i < 0 {
          b := new Backing(size, size);
          lent := lent + {b};
          return;
        }
      }
      b := Take(i);
      b.len := size;
    }

    /** Put. Capacities stay right exactly when the backing is empty or at least as large as the smallest
        class; a smaller one is filed under class 0 all the same. */
    method Put(b: Backing)
      requires Shaped() && b !in Kept()
      modifies this, b
      ensures Shaped() && lent == old(lent) - {b}
      ensures Kept() == old(Kept()) + if 0 < b.arr.Length <= MAX_SIZE then {b} else {}
      ensures old(CapacityOk()) ==> (CapacityOk() <==> Fileable(b))
      ensures old(Valid()) && Fileable(b) ==> Valid()
    {
      var size := b.arr.Length;
      lent := lent - {b};
      if size <= 0 || size > MAX_SIZE { return; }
      b.len := 0;
      var i, exact := FindPool(size);
      if !exact {
        i := FindClosestPool(size);
      } else {
        SizesAscend(i, i);
      }
      UnionAdd(pools, i, b);
      pools := pools[i := pools[i] + {b}];
      assert b in pools[i];
    }
  }

  /** What a caller does: asks for a size, or gives back the i-th of what it holds. */
  datatype Request = Want(size: int) | GiveBack(i: nat)

  function Asked(requests: seq<Request>): seq<nat> {
    if requests == [] then [] else
    var n := |requests| - 1;
    match requests[n]
    case Want(size) => Asked(requests[..n]) + [if size <= 0 then 0 else size]
    case GiveBack(_) => Asked(requests[..n])
  }

  lemma AskedSnoc(requests: seq<Request>, k: nat)
    requires k < |requests|
    ensures requests[..k + 1][..k] == requests[..k] && requests[..k + 1][k] == requests[k]
  {
  }

  /** Any run in which only arrays obtained from Get are Put: each Get returns the length asked for. */
  method AnyRun(requests: seq<Request>) returns (lengths: seq<nat>)
    ensures lengths == Asked(requests)
  {
    var pool := new BufferPool();
    var held: seq<Backing> := [];
    lengths := [];
    for k := 0 to |requests|
      invariant fresh(pool) && pool.Valid() && lengths == Asked(requests[..k])
      invariant forall b :: b in pool.Kept() || b in held ==> fresh(b)
      invariant forall b :: b in held ==> b in pool.lent
    {
      AskedSnoc(requests, k);
      match requests[k]
      case Want(size) =>
        var b := pool.Get(size);
        held, lengths := held + [b], lengths + [b.len];
      case GiveBack(i) =>
        if i < |held| {
          var b := held[i];
          assert b in held;
          pool.LentIsNotKept(b);
          pool.Put(b);
          held := Without(held, b);
        }
    }
    assert requests[..|requests|] == requests;
  }

  method Without(held: seq<Backing>, b: Backing) returns (left: seq<Backing>)
    ensures forall c :: c in left <==> c in held && c != b
  {
    left := [];
    for i := 0 to |held|
      invariant forall c :: c in left <==> c in held[..i] && c != b
    {
      assert held[..i + 1] == held[..i] + [held[i]];
      if held[i] != b { left := left + [held[i]]; }
    }
    assert held[..|held|] == held;
  }
}
