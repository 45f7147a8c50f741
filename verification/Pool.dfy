/** The free list shared by MemoryAlloc and CellObjectPool: block headers hold a reference
    count and the index of the next free block, -1 standing for nullptr. */
module FreeList {

  const NIL: int := -1

  /** Following `next` from `head` visits exactly `chain` and then stops. */
  ghost predicate IsChain(next: seq<int>, head: int, chain: seq<nat>)
    decreases |chain|
  {
    if chain == [] then head == NIL
    else head == chain[0] && chain[0] < |next| && IsChain(next, next[chain[0]], chain[1..])
  }

  ghost predicate NoRepeats(chain: seq<nat>) {
    forall i, j :: 0 <= i < j < |chain| ==> chain[i] != chain[j]
  }

  /** The chain is acyclic and holds exactly the blocks with reference count 0. */
  ghost predicate Holds(next: seq<int>, refs: seq<int>, head: int, chain: seq<nat>) {
    && |next| == |refs|
    && IsChain(next, head, chain) && NoRepeats(chain)
    && (forall i :: 0 <= i < |refs| ==> refs[i] >= 0 && (refs[i] == 0 <==> i in chain))
    && (forall i :: 0 <= i < |chain| ==> chain[i] < |next|)
  }

  lemma {:induction false} ChainUnchanged(next: seq<int>, next': seq<int>, head: int, chain: seq<nat>)
    requires IsChain(next, head, chain) && |next| == |next'|
    requires forall i :: 0 <= i < |chain| && chain[i] < |next| ==> next[chain[i]] == next'[chain[i]]
    ensures IsChain(next', head, chain)
    decreases |chain|
  {
    if chain != [] {
      forall i | 0 <= i < |chain[1..]| && chain[1..][i] < |next|
        ensures next[chain[1..][i]] == next'[chain[1..][i]]
      {
        assert chain[1..][i] == chain[i + 1];
      }
      ChainUnchanged(next, next', next[chain[0]], chain[1..]);
    }
  }

  /** Taking the head block with count 1 leaves the rest of the chain. */
  lemma TakeHead(next: seq<int>, refs: seq<int>, head: int, chain: seq<nat>)
    requires Holds(next, refs, head, chain) && head != NIL
    ensures chain != [] && head == chain[0] && 0 <= head < |refs| && refs[head] == 0
    ensures Holds(next, refs[head := 1], next[head], chain[1..])
  {
    forall i | 0 <= i < |refs| && i != head ensures i in chain <==> i in chain[1..] {
      if i in chain {
        var k :| 0 <= k < |chain| && chain[k] == i;
        assert chain[1..][k - 1] == i;
      }
    }
  }

  /** Putting back a block whose count has dropped to 0. */
  lemma PutBack(next: seq<int>, refs: seq<int>, head: int, chain: seq<nat>, id: nat)
    requires Holds(next, refs, head, chain) && id < |refs| && refs[id] == 1
    ensures Holds(next[id := head], refs[id := 0], id, [id] + chain)
  {
    assert id !in chain;
    ChainUnchanged(next, next[id := head], head, chain);
    assert ([id] + chain)[1..] == chain;
    forall i | 0 <= i < |refs| ensures i in [id] + chain <==> i == id || i in chain {
    }
  }

  /** The number of blocks whose count is positive. */
  ghost function LiveCount(refs: seq<int>): nat {
    if refs == [] then 0
    else LiveCount(refs[..|refs| - 1]) + (if refs[|refs| - 1] != 0 then 1 else 0)
  }

  ghost function FreeSet(refs: seq<int>): (s: set<int>)
    ensures forall i :: i in s <==> 0 <= i < |refs| && refs[i] == 0
  {
    set i | 0 <= i < |refs| && refs[i] == 0
  }

  lemma {:induction false} FreeAndLive(refs: seq<int>)
    ensures |FreeSet(refs)| + LiveCount(refs) == |refs|
  {
    if refs == [] {
      assert FreeSet(refs) == {};
    } else {
      var n := |refs| - 1;
      FreeAndLive(refs[..n]);
      if refs[n] == 0 {
        assert FreeSet(refs) == FreeSet(refs[..n]) + {n};
      } else {
        assert FreeSet(refs) == FreeSet(refs[..n]);
      }
    }
  }

  lemma {:induction false} NoRepeatsSize(chain: seq<nat>)
    requires NoRepeats(chain)
    ensures |set i: int | i in chain| == |chain|
  {
    if chain == [] {
      assert (set i: int | i in chain) == {};
    } else {
      var rest := chain[1..];
      NoRepeatsSize(rest);
      assert (set i: int | i in chain) == (set i: int | i in rest) + {chain[0] as int};
      assert chain[0] !in rest;
    }
  }

  /** Conservation: every block is either free or live. */
  lemma FreePlusLive(next: seq<int>, refs: seq<int>, head: int, chain: seq<nat>)
    requires Holds(next, refs, head, chain)
    ensures |chain| + LiveCount(refs) == |refs|
  {
    FreeAndLive(refs);
    NoRepeatsSize(chain);
    assert FreeSet(refs) == (set i: int | i in chain);
  }

  /** The initialisation loop's links: 0, 1, 2, ... from `from` on. */
  ghost function Count(from: nat, n: nat): (s: seq<nat>)
    requires from <= n
    ensures |s| == n - from && forall i :: 0 <= i < |s| ==> s[i] == from + i
  {
    seq(n - from, i requires 0 <= i => from + i)
  }

  lemma {:induction false} FreshChain(next: seq<int>, from: nat)
    requires from < |next|
    requires forall i :: from <= i < |next| ==> next[i] == if i + 1 < |next| then i + 1 else NIL
    ensures IsChain(next, from, Count(from, |next|))
    decreases |next| - from
  {
    var c := Count(from, |next|);
    if from + 1 < |next| {
      FreshChain(next, from + 1);
      assert c[1..] == Count(from + 1, |next|);
    } else {
      assert c[1..] == [];
    }
  }
}

/** Where MemoryAlloc puts its blocks. */
module Layout {
  import opened Basics

  /** The rounding in MemoryAlloctor's constructor, `p` being sizeof(void*). */
  function RoundUp(n: nat, p: nat): nat
    requires p > 0
  {
    (n / p) * p + (if n % p != 0 then p else 0)
  }

  predicate Aligned(n: nat, p: nat)
    requires p > 0
  {
    n % p == 0
  }

  /** It is the least multiple of `p` that is at least `n`. */
  lemma RoundUpIsLeast(n: nat, p: nat, m: nat)
    requires p > 0
    ensures n <= RoundUp(n, p) && RoundUp(n, p) % p == 0
    ensures n <= m && m % p == 0 ==> RoundUp(n, p) <= m
  {
    var q := n / p;
    assert n == q * p + n % p;
    Multiple(q, p);
    Multiple(q + 1, p);
    assert (q + 1) * p == q * p + p;
    if n <= m && m % p == 0 {
      var r := m / p;
      assert m == r * p;
      if r <= q {
        MulMono(r, q, p);
      } else {
        MulMono(q + 1, r, p);
      }
    }
  }

  lemma QuotientRemainder(x: nat, p: nat, q: nat, r: nat)
    requires p > 0 && x == q * p + r && r < p
    ensures x / p == q && x % p == r
  {
    var k := x / p;
    assert x == k * p + x % p;
    assert (k + 1) * p == k * p + p && (q + 1) * p == q * p + p;
    if k < q { MulMono(k + 1, q, p); }
    if q < k { MulMono(q + 1, k, p); }
  }

  lemma Multiple(k: nat, p: nat)
    requires p > 0
    ensures k * p % p == 0
  {
    QuotientRemainder(k * p, p, k, 0);
  }

  /** initMemory: block `n` starts at base + n * realSize; its payload follows a header of
      `hdr` bytes. */
  function Block(base: nat, n: nat, size: nat, hdr: nat): nat { base + n * (size + hdr) }
  function Payload(base: nat, n: nat, size: nat, hdr: nat): nat { Block(base, n, size, hdr) + hdr }

  /** Distinct blocks do not overlap, every block lies inside the buffer, and stepping back
      a header from a payload gives the block. */
  lemma BlocksApart(base: nat, size: nat, hdr: nat, count: nat, i: nat, j: nat)
    requires i < count && j < count && i != j
    ensures Payload(base, i, size, hdr) + size <= Block(base, j, size, hdr) ||
            Payload(base, j, size, hdr) + size <= Block(base, i, size, hdr)
    ensures base <= Block(base, i, size, hdr) && Payload(base, i, size, hdr) + size <= base + count * (size + hdr)
    ensures Payload(base, i, size, hdr) - hdr == Block(base, i, size, hdr)
  {
    var step := size + hdr;
    assert (i + 1) * step == i * step + step && (j + 1) * step == j * step + step;
    if i < j { MulMono(i + 1, j, step); } else { MulMono(j + 1, i, step); }
    MulMono(i + 1, count, step);
  }

  lemma BlockInside(base: nat, size: nat, hdr: nat, count: nat, i: nat)
    requires i < count
    ensures base <= Block(base, i, size, hdr) && Payload(base, i, size, hdr) + size <= base + count * (size + hdr)
  {
    assert (i + 1) * (size + hdr) == i * (size + hdr) + (size + hdr);
    MulMono(i + 1, count, size + hdr);
  }

  /** Blocks and payloads are aligned when the buffer, the header and the size are. */
  lemma BlocksAligned(base: nat, size: nat, hdr: nat, i: nat, p: nat)
    requires p > 0 && base % p == 0 && size % p == 0 && hdr % p == 0
    ensures Block(base, i, size, hdr) % p == 0 && Payload(base, i, size, hdr) % p == 0
  {
    SumAligned(size, hdr, p);
    TimesAligned(i, size + hdr, p);
    SumAligned(base, i * (size + hdr), p);
    SumAligned(Block(base, i, size, hdr), hdr, p);
  }

  lemma SumAligned(x: nat, y: nat, p: nat)
    requires p > 0 && x % p == 0 && y % p == 0
    ensures (x + y) % p == 0
  {
    var a, b := x / p, y / p;
    assert x == a * p && y == b * p;
    Distribute(a, b, p);
    Multiple(a + b, p);
  }

  lemma {:induction false} TimesAligned(i: nat, x: nat, p: nat)
    requires p > 0 && x % p == 0
    ensures i * x % p == 0
  {
    if i > 0 {
      TimesAligned(i - 1, x, p);
      assert i * x == (i - 1) * x + x;
      SumAligned((i - 1) * x, x, p);
    }
  }

  lemma Distribute(a: nat, b: nat, p: nat)
    ensures (a + b) * p == a * p + b * p
  {
  }
}

module Pools {
  import opened FreeList
  import Layout

  /** MemoryAlloc: `count` blocks of `size` bytes, carved on first use. */
  class MemoryAlloc {
    const size: nat
    const next: array<int>
    const nRef: array<int>
    var inited: bool   // _pBuf is not null
    var header: int
    ghost var chain: seq<nat>

    ghost predicate Valid()
      reads this, next, nRef
    {
      && next != nRef && next.Length == nRef.Length >= 1
      && (if inited then Holds(next[..], nRef[..], header, chain) else header == NIL)
    }

    /** The reference counts; before the first allocation every block is unused. */
    ghost function Refs(): (r: seq<int>)
      reads this, next, nRef
      ensures |r| == nRef.Length
    {
      if inited then nRef[..] else seq(nRef.Length, _ => 0)
    }

    constructor (nSize: nat, nBlockSize: nat, p: nat)
      requires nBlockSize >= 1 && p > 0
      ensures Valid() && size == Layout.RoundUp(nSize, p) && nRef.Length == nBlockSize
      ensures fresh(next) && fresh(nRef) && Refs() == seq(nBlockSize, _ => 0)
    {
      size := Layout.RoundUp(nSize, p);
      next := new int[nBlockSize];
      nRef := new int[nBlockSize];
      inited, header, chain := false, NIL, [];
    }

    method InitMemory()
      requires Valid() && !inited
      modifies this, next, nRef
      ensures Valid() && inited && Refs() == old(Refs())
      ensures chain == Count(0, nRef.Length)
    {
      inited := true;
      header := 0;
      nRef[0] := 0;
      next[0] := NIL;
      var n := 1;
      while n < nRef.Length
        invariant 1 <= n <= nRef.Length && inited && header == 0
        invariant forall i :: 0 <= i < n ==> nRef[i] == 0
        invariant forall i :: 0 <= i < n ==> next[i] == if i + 1 < n then i + 1 else NIL
      {
        nRef[n] := 0;
        next[n] := NIL;
        next[n - 1] := n;
        n := n + 1;
      }
      chain := Count(0, n);
      FreshChain(next[..], 0);
      forall i | 0 <= i < n ensures i in chain { assert chain[i] == i; }
      assert nRef[..] == seq(nRef.Length, _ => 0);
    }

    /** The block handed out, or -1 for a block from the heap. */
    method AllocMemory() returns (id: int)
      requires Valid()
      modifies this, next, nRef
      ensures Valid() && inited
      ensures id == NIL <==> forall i :: 0 <= i < |old(Refs())| ==> old(Refs())[i] != 0
      ensures id != NIL ==> 0 <= id < |Refs()| && old(Refs())[id] == 0
      ensures id != NIL ==> (if old(inited) then old(chain) else Count(0, nRef.Length)) == [id] + chain
      ensures Refs() == if id == NIL then old(Refs()) else old(Refs())[id := 1]
    {
      if !inited {
        InitMemory();
        assert Refs()[0] == 0;
      }
      if header == NIL {
        assert chain == [];
        return NIL;
      }
      id := header;
      TakeHead(next[..], nRef[..], header, chain);
      header := next[header];
      nRef[id] := 1;
      chain := chain[1..];
      assert nRef[..] == old(Refs())[id := 1];
    }

    method FreeMemory(id: nat)
      requires Valid() && id < |Refs()| && Refs()[id] >= 1
      modifies this, next, nRef
      ensures Valid() && Refs() == old(Refs())[id := old(Refs())[id] - 1]
      ensures Refs()[id] == 0 ==> chain == [id] + old(chain)
    {
      assert inited;
      nRef[id] := nRef[id] - 1;
      if nRef[id] != 0 {
        assert nRef[..] == old(nRef[..])[id := old(nRef[id]) - 1];
        return;
      }
      PutBack(old(next[..]), old(nRef[..]), header, chain, id);
      next[id] := header;
      header := id;
      chain := [id] + chain;
      assert nRef[..] == old(nRef[..])[id := 0] && next[..] == old(next[..])[id := old(header)];
    }

    method AddRef(id: nat)
      requires Valid() && id < |Refs()| && Refs()[id] >= 1
      modifies nRef
      ensures Valid() && Refs() == old(Refs())[id := old(Refs())[id] + 1]
    {
      nRef[id] := nRef[id] + 1;
      assert nRef[..] == old(nRef[..])[id := old(nRef[id]) + 1];
    }
  }

  /** What a payload pointer leads back to. */
  datatype Ptr = InPool(k: nat, id: nat) | OnHeap(h: nat)

  predicate Ascending(classes: seq<nat>) {
    forall i, j :: 0 <= i < j < |classes| ==> classes[i] < classes[j]
  }

  /** Class `k` is the smallest that holds `n` bytes. */
  predicate IsClass(classes: seq<nat>, n: nat, k: nat) {
    k < |classes| && n <= classes[k] && (k > 0 ==> classes[k - 1] < n)
  }

  /** MemoryMgr's constructor: init_szAlloc for each class in turn. */
  method BuildTable(classes: seq<nat>) returns (table: array<nat>)
    requires classes != [] && Ascending(classes)
    ensures fresh(table) && table.Length == classes[|classes| - 1] + 1
    ensures forall n :: 0 <= n < table.Length ==> IsClass(classes, n, table[n])
  {
    table := new nat[classes[|classes| - 1] + 1];
    var from := 0;
    var k := 0;
    while k < |classes|
      invariant k <= |classes|
      invariant from == if k == 0 then 0 else classes[k - 1] + 1
      invariant forall n :: 0 <= n < from && n < table.Length ==> IsClass(classes, n, table[n])
    {
      var n := from;
      while n <= classes[k]
        invariant from <= n <= classes[k] + 1
        invariant forall i :: 0 <= i < n && i < table.Length ==> IsClass(classes, i, table[i])
      {
        table[n] := k;
        n := n + 1;
      }
      from := n;
      k := k + 1;
    }
  }

  ghost predicate Distinct(ps: seq<MemoryAlloc>) {
    && (forall j, k :: 0 <= j < k < |ps| ==>
         && ps[j] != ps[k]
         && ps[j].next != ps[k].next && ps[j].nRef != ps[k].nRef
         && ps[j].next != ps[k].nRef && ps[j].nRef != ps[k].next)
    && (forall j, k :: 0 <= j < |ps| && 0 <= k < |ps| ==>
         ps[j] as object != ps[k].next && ps[j] as object != ps[k].nRef)
  }

  ghost predicate Built(ps: seq<MemoryAlloc>, classes: seq<nat>, count: nat)
    reads set k | 0 <= k < |ps| :: ps[k], set k | 0 <= k < |ps| :: ps[k].next, set k | 0 <= k < |ps| :: ps[k].nRef
  {
    |ps| <= |classes| && Distinct(ps) &&
    forall k :: 0 <= k < |ps| ==>
      ps[k].Valid() && ps[k].size >= classes[k] && ps[k].nRef.Length == count && ps[k].Refs() == seq(count, _ => 0)
  }

  ghost predicate Within(ps: seq<MemoryAlloc>, repr: set<object>) {
    forall k :: 0 <= k < |ps| ==> ps[k] in repr && ps[k].next in repr && ps[k].nRef in repr
  }

  /** One more pool, made of objects none of the others uses. */
  lemma BuiltMore(ps: seq<MemoryAlloc>, a: MemoryAlloc, classes: seq<nat>, count: nat, repr: set<object>)
    requires Built(ps, classes, count) && Within(ps, repr) && |ps| < |classes|
    requires a !in repr && a.next !in repr && a.nRef !in repr && a as object != a.next && a as object != a.nRef
    requires a.Valid() && a.size >= classes[|ps|] && a.nRef.Length == count && a.Refs() == seq(count, _ => 0)
    ensures Built(ps + [a], classes, count) && Within(ps + [a], repr + {a, a.next, a.nRef})
  {
  }

  method BuildPools(classes: seq<nat>, count: nat, p: nat) returns (ps: seq<MemoryAlloc>, ghost repr: set<object>)
    requires count >= 1 && p > 0
    ensures |ps| == |classes| && Built(ps, classes, count) && Within(ps, repr)
    ensures forall k :: 0 <= k < |ps| ==> Layout.Aligned(ps[k].size, p)
    ensures fresh(repr)
  {
    ps, repr := [], {};
    while |ps| < |classes|
      invariant Built(ps, classes, count) && Within(ps, repr) && fresh(repr)
      invariant forall k :: 0 <= k < |ps| ==> Layout.Aligned(ps[k].size, p)
    {
      var a := new MemoryAlloc(classes[|ps|], count, p);
      Layout.RoundUpIsLeast(classes[|ps|], p, 0);
      BuiltMore(ps, a, classes, count, repr);
      ps := ps + [a];
      repr := repr + {a, a.next, a.nRef};
    }
  }

  /** MemoryMgr over any pools and class table. */
  class MemoryMgr {
    const pools: seq<MemoryAlloc>
    const szAlloc: array<nat>  // request size -> pool
    var heap: map<nat, int>    // heap blocks not yet freed and their _nRef
    var heapSize: map<nat, nat>
    var nextHeap: nat
    ghost const Repr: set<object>

    ghost predicate Separate()
    {
      && this !in Repr
      && (forall k :: 0 <= k < |pools| ==> pools[k] in Repr && pools[k].next in Repr && pools[k].nRef in Repr)
      && Distinct(pools)
      && (forall k :: 0 <= k < |pools| ==> pools[k].next != szAlloc as object && pools[k].nRef != szAlloc as object && pools[k] as object != szAlloc)
    }

    ghost predicate Valid()
      reads this, Repr, szAlloc
    {
      && Separate()
      && (forall k :: 0 <= k < |pools| ==> pools[k].Valid())
      && (forall n :: 0 <= n < szAlloc.Length ==> szAlloc[n] < |pools| && n <= pools[szAlloc[n]].size)
      && (forall h :: h in heap ==> h < nextHeap && heap[h] >= 1)
      && heapSize.Keys == heap.Keys
    }

    /** The reference count of what a pointer leads to; 0 when nobody may hold it. */
    ghost function RefOf(p: Ptr): int
      reads this, Repr
      requires Separate()
    {
      match p
      case InPool(k, id) => if k < |pools| && id < |pools[k].Refs()| then pools[k].Refs()[id] else 0
      case OnHeap(h) => if h in heap then heap[h] else 0
    }

    ghost function Capacity(p: Ptr): nat
      reads this
    {
      match p
      case InPool(k, _) => if k < |pools| then pools[k].size else 0
      case OnHeap(h) => if h in heapSize then heapSize[h] else 0
    }

    /** Where pool `k`'s buffer, placed at `bases[k]`, ends. */
    ghost function End(bases: seq<nat>, hdr: nat, k: nat): nat
      requires k < |pools| == |bases|
    {
      bases[k] + pools[k].nRef.Length * (pools[k].size + hdr)
    }

    /** malloc gives the pools separate buffers. */
    ghost predicate Placed(bases: seq<nat>, hdr: nat) {
      |bases| == |pools| &&
      forall j, k :: 0 <= j < k < |pools| ==> End(bases, hdr, j) <= bases[k] || End(bases, hdr, k) <= bases[j]
    }

    /** The address a caller is handed for a pool block. */
    ghost function Address(bases: seq<nat>, hdr: nat, p: Ptr): nat
      requires p.InPool? && p.k < |pools| == |bases|
    {
      Layout.Payload(bases[p.k], p.id, pools[p.k].size, hdr)
    }

    lemma InsideBuffer(bases: seq<nat>, hdr: nat, p: Ptr)
      requires Valid() && |bases| == |pools| && p.InPool? && RefOf(p) >= 1
      ensures bases[p.k] <= Address(bases, hdr, p) && Address(bases, hdr, p) + Capacity(p) <= End(bases, hdr, p.k)
    {
      var pool := pools[p.k];
      assert pool.Valid();
      Layout.BlockInside(bases[p.k], pool.size, hdr, pool.nRef.Length, p.id);
    }

    /** The payloads of two live pool blocks never overlap, whatever their classes, and each
        is aligned when the buffers and headers are. */
    lemma LivePayloadsApart(bases: seq<nat>, hdr: nat, p: Ptr, q: Ptr, a: nat)
      requires Valid() && Placed(bases, hdr) && p.InPool? && q.InPool? && p != q && RefOf(p) >= 1 && RefOf(q) >= 1
      requires a > 0 && Layout.Aligned(bases[p.k], a) && Layout.Aligned(hdr, a) && Layout.Aligned(pools[p.k].size, a)
      ensures Address(bases, hdr, p) + Capacity(p) <= Address(bases, hdr, q) ||
              Address(bases, hdr, q) + Capacity(q) <= Address(bases, hdr, p)
      ensures Layout.Aligned(Address(bases, hdr, p), a)
    {
      InsideBuffer(bases, hdr, p);
      InsideBuffer(bases, hdr, q);
      if p.k == q.k {
        var pool := pools[p.k];
        assert pool.Valid();
        Layout.BlocksApart(bases[p.k], pool.size, hdr, pool.nRef.Length, p.id, q.id);
      }
      Layout.BlocksAligned(bases[p.k], pools[p.k].size, hdr, p.id, a);
    }

    /** `classes` are the payload sizes, ascending; request sizes up to the last one go to
        the smallest class that holds them. */
    constructor (classes: seq<nat>, count: nat, p: nat)
      requires classes != [] && count >= 1 && p > 0 && Ascending(classes)
      ensures Valid() && szAlloc.Length == classes[|classes| - 1] + 1
      ensures |pools| == |classes| && forall n :: 0 <= n < szAlloc.Length ==> IsClass(classes, n, szAlloc[n])
      ensures forall k :: 0 <= k < |pools| ==> pools[k].nRef.Length == count && Layout.Aligned(pools[k].size, p)
      ensures forall q :: RefOf(q) == 0
    {
      var table := BuildTable(classes);
      ghost var repr;
      var ps;
      ps, repr := BuildPools(classes, count, p);
      pools := ps;
      szAlloc := table;
      heap, heapSize, nextHeap := map[], map[], 0;
      Repr := repr;
    }

    method NewHeapBlock(n: nat) returns (p: Ptr)
      requires Valid()
      modifies this
      ensures Valid() && p.OnHeap? && old(RefOf(p)) == 0 && RefOf(p) == 1 && Capacity(p) >= n
      ensures forall q :: q != p ==> RefOf(q) == old(RefOf(q))
    {
      heap := heap[nextHeap := 1];
      heapSize := heapSize[nextHeap := n];
      p := OnHeap(nextHeap);
      nextHeap := nextHeap + 1;
    }

    /** Nobody holds the block that is handed out, it is large enough, nobody else's count
        changes, and the heap is used only for oversize requests or when every block of the
        request's class is live. */
    method AllocMem(n: nat) returns (p: Ptr)
      requires Valid()
      modifies this, Repr
      ensures Valid() && old(RefOf(p)) == 0 && RefOf(p) == 1 && Capacity(p) >= n
      ensures forall q :: q != p ==> RefOf(q) == old(RefOf(q))
      ensures p.OnHeap? && n < szAlloc.Length ==>
                forall i :: 0 <= i < |old(pools[szAlloc[n]].Refs())| ==> old(pools[szAlloc[n]].Refs())[i] > 0
      ensures p.InPool? ==> n < szAlloc.Length && p.k == szAlloc[n]
    {
      if n < szAlloc.Length {
        var k := szAlloc[n];
        var id := pools[k].AllocMemory();
        assert forall j :: 0 <= j < |pools| && j != k ==> pools[j].Refs() == old(pools[j].Refs());
        if id == NIL {
          p := NewHeapBlock(n);
        } else {
          p := InPool(k, id);
        }
      } else {
        p := NewHeapBlock(n);
      }
    }

    method FreeMem(p: Ptr)
      requires Valid() && RefOf(p) >= 1
      modifies this, Repr
      ensures Valid() && RefOf(p) == old(RefOf(p)) - 1
      ensures forall q :: q != p ==> RefOf(q) == old(RefOf(q))
    {
      match p
      case InPool(k, id) =>
        pools[k].FreeMemory(id);
        assert forall j :: 0 <= j < |pools| && j != k ==> pools[j].Refs() == old(pools[j].Refs());
      case OnHeap(h) =>
        var left := heap[h] - 1;
        if left != 0 {
          heap := heap[h := left];
        } else {
          heap := heap - {h};
          heapSize := heapSize - {h};
        }
    }

    method AddRef(p: Ptr)
      requires Valid() && RefOf(p) >= 1
      modifies this, Repr
      ensures Valid() && RefOf(p) == old(RefOf(p)) + 1
      ensures forall q :: q != p ==> RefOf(q) == old(RefOf(q))
    {
      match p
      case InPool(k, id) =>
        pools[k].AddRef(id);
        assert forall j :: 0 <= j < |pools| && j != k ==> pools[j].Refs() == old(pools[j].Refs());
      case OnHeap(h) =>
        heap := heap[h := heap[h] + 1];
    }

    method InUse(p: Ptr) returns (b: bool)
      requires Valid()
      ensures b == (RefOf(p) >= 1)
    {
      match p
      case InPool(k, id) => b := k < |pools| && id < pools[k].nRef.Length && pools[k].inited && pools[k].nRef[id] >= 1;
      case OnHeap(h) => b := h in heap;
    }

    /** One request; refused (empty) when it names a block nobody holds. */
    method Do(op: Op) returns (e: seq<Entry>)
      requires Valid()
      modifies this, Repr
      ensures Valid() && |e| <= 1
      ensures match op
              case Alloc(n) => |e| == 1 && e[0].Allocated? && e[0].n == n && Capacity(e[0].p) >= n
              case Add(q) => e == if old(RefOf(q)) >= 1 then [Added(q)] else []
              case Free(q) => e == if old(RefOf(q)) >= 1 then [Freed(q)] else []
      ensures e == [] ==> forall q :: RefOf(q) == old(RefOf(q))
      ensures e != [] ==> (if e[0].Allocated? then old(RefOf(e[0].p)) == 0 else old(RefOf(e[0].p)) >= 1)
      ensures e != [] ==> RefOf(e[0].p) == old(RefOf(e[0].p)) + Change(e[0])
      ensures e != [] ==> forall q :: q != e[0].p ==> RefOf(q) == old(RefOf(q))
    {
      e := [];
      match op {
        case Alloc(n) =>
          var p := AllocMem(n);
          e := [Allocated(p, n)];
        case Add(p) =>
          var ok := InUse(p);
          if ok {
            AddRef(p);
            e := [Added(p)];
          }
        case Free(p) =>
          var ok := InUse(p);
          if ok {
            FreeMem(p);
            e := [Freed(p)];
          }
      }
    }

    /** The counts agree with a log of what was done. */
    ghost predicate Agrees(log: seq<Entry>)
      reads this, Repr
      requires Separate()
    {
      forall q :: RefOf(q) == Tally(log, q)
    }

    method DoLogged(op: Op, log: seq<Entry>, ghost ops: seq<Op>) returns (log': seq<Entry>)
      requires Valid() && Lawful(log) && Follows(ops, log) && Agrees(log)
      modifies this, Repr
      ensures Valid() && Lawful(log') && Follows(ops + [op], log') && Agrees(log')
    {
      var e := Do(op);
      assert Answers(op, log, e);
      LogStep(ops, log, op, e);
      log' := log + e;
    }

    /** Any run by owners who touch only blocks somebody holds.  The counts are exactly
        what the log says, and no block is handed out while the log still has it held. */
    method Play(ops: seq<Op>) returns (log: seq<Entry>)
      requires Valid() && forall q :: RefOf(q) == 0
      modifies this, Repr
      ensures Valid() && Lawful(log) && Follows(ops, log)
      ensures forall q :: RefOf(q) == Tally(log, q)
    {
      log := [];
      var i := 0;
      while i < |ops|
        invariant i <= |ops| && Valid() && Lawful(log) && Follows(ops[..i], log) && Agrees(log)
      {
        assert ops[..i + 1] == ops[..i] + [ops[i]];
        log := DoLogged(ops[i], log, ops[..i]);
        i := i + 1;
      }
      assert ops[..i] == ops;
    }
  }

  datatype Op = Alloc(n: nat) | Add(q: Ptr) | Free(q: Ptr)
  datatype Entry = Allocated(p: Ptr, n: nat) | Added(p: Ptr) | Freed(p: Ptr)

  function Change(e: Entry): int { if e.Freed? then -1 else 1 }

  /** References a log leaves on `q`. */
  function Tally(log: seq<Entry>, q: Ptr): int {
    if log == [] then 0
    else
      var e := log[|log| - 1];
      Tally(log[..|log| - 1], q) + (if e.p != q then 0 else Change(e))
  }

  /** Blocks are handed out only when nobody holds them, and touched only when held. */
  predicate Lawful(log: seq<Entry>) {
    forall i :: 0 <= i < |log| ==>
      if log[i].Allocated? then Tally(log[..i], log[i].p) == 0 else Tally(log[..i], log[i].p) >= 1
  }

  /** `log` records what `ops` asked for: every allocation, and the additions and releases
      of blocks held at the time. */
  ghost predicate Follows(ops: seq<Op>, log: seq<Entry>)
    decreases |ops|, 0
  {
    if ops == [] then log == []
    else
      var op, before := ops[|ops| - 1], ops[..|ops| - 1];
      match op
      case Alloc(n) => log != [] && (var e := log[|log| - 1]; e.Allocated? && e.n == n) && Follows(before, log[..|log| - 1])
      case Add(q) => FollowsHeld(before, log, q, Added(q))
      case Free(q) => FollowsHeld(before, log, q, Freed(q))
  }

  ghost predicate FollowsHeld(before: seq<Op>, log: seq<Entry>, q: Ptr, e: Entry)
    decreases |before|, 1
  {
    (log != [] && log[|log| - 1] == e && Tally(log[..|log| - 1], q) >= 1 && Follows(before, log[..|log| - 1])) ||
    (Tally(log, q) < 1 && Follows(before, log))
  }

  lemma LogOne(log: seq<Entry>, e: Entry)
    ensures (log + [e])[..|log|] == log
    ensures forall q :: Tally(log + [e], q) == Tally(log, q) + (if e.p != q then 0 else Change(e))
    ensures Lawful(log) && (if e.Allocated? then Tally(log, e.p) == 0 else Tally(log, e.p) >= 1) ==> Lawful(log + [e])
  {
    assert (log + [e])[..|log|] == log;
    forall i | 0 <= i < |log| ensures (log + [e])[..i] == log[..i] {}
  }

  predicate Answers(op: Op, log: seq<Entry>, e: seq<Entry>) {
    match op
    case Alloc(n) => |e| == 1 && e[0].Allocated? && e[0].n == n && Tally(log, e[0].p) == 0
    case Add(q) => e == if Tally(log, q) >= 1 then [Added(q)] else []
    case Free(q) => e == if Tally(log, q) >= 1 then [Freed(q)] else []
  }

  lemma LogStep(ops: seq<Op>, log: seq<Entry>, op: Op, e: seq<Entry>)
    requires Follows(ops, log) && Lawful(log) && Answers(op, log, e)
    ensures Follows(ops + [op], log + e) && Lawful(log + e)
    ensures forall q :: Tally(log + e, q) == Tally(log, q) + (if e != [] && e[0].p == q then Change(e[0]) else 0)
  {
    assert (ops + [op])[..|ops|] == ops;
    if e == [] {
      assert log + e == log;
    } else {
      assert e == [e[0]];
      LogOne(log, e[0]);
    }
  }

  /** CellObjectPool: the same chain, carved when the pool is built; freeObjMemory asserts
      that the count is 1. */
  class CellObjectPool {
    const next: array<int>
    const nRef: array<int>
    var header: int
    var heap: set<nat>
    var nextHeap: nat
    ghost var chain: seq<nat>

    ghost predicate Valid()
      reads this, next, nRef
    {
      && next != nRef
      && Holds(next[..], nRef[..], header, chain)
      && (forall i :: 0 <= i < nRef.Length ==> nRef[i] <= 1)
      && (forall h :: h in heap ==> h < nextHeap)
    }

    /** Whether an object lives at `p`. */
    ghost predicate Live(p: Ptr)
      reads this, nRef
    {
      match p
      case InPool(k, id) => k == 0 && id < nRef.Length && nRef[id] == 1
      case OnHeap(h) => h in heap
    }

    constructor (poolSize: nat)
      requires poolSize >= 1
      ensures Valid() && nRef.Length == poolSize && chain == Count(0, poolSize)
      ensures forall p :: !Live(p)
    {
      next := new int[poolSize];
      nRef := new int[poolSize];
      header, heap, nextHeap := 0, {}, 0;
      chain := Count(0, poolSize);
      new;
      next[0] := NIL;
      nRef[0] := 0;
      var n := 1;
      while n < poolSize
        invariant 1 <= n <= poolSize
        invariant header == 0 && heap == {} && nextHeap == 0 && chain == Count(0, poolSize)
        invariant forall i :: 0 <= i < n ==> nRef[i] == 0
        invariant forall i :: 0 <= i < n ==> next[i] == if i + 1 < n then i + 1 else NIL
      {
        nRef[n] := 0;
        next[n] := NIL;
        next[n - 1] := n;
        n := n + 1;
      }
      FreshChain(next[..], 0);
      forall i | 0 <= i < poolSize ensures i in chain { assert chain[i] == i; }
    }

    method AllocObj() returns (p: Ptr)
      requires Valid()
      modifies this, next, nRef
      ensures Valid() && !old(Live(p)) && Live(p)
      ensures forall q :: q != p ==> Live(q) == old(Live(q))
      ensures p.OnHeap? ==> forall i :: 0 <= i < nRef.Length ==> old(nRef[i]) == 1
    {
      if header == NIL {
        assert chain == [];
        p := OnHeap(nextHeap);
        heap := heap + {nextHeap};
        nextHeap := nextHeap + 1;
        return;
      }
      var id := header;
      TakeHead(next[..], nRef[..], header, chain);
      header := next[id];
      nRef[id] := 1;
      chain := chain[1..];
      p := InPool(0, id);
      assert nRef[..] == old(nRef[..])[id := 1];
    }

    method FreeObj(p: Ptr)
      requires Valid() && Live(p)
      modifies this, next, nRef
      ensures Valid() && !Live(p)
      ensures forall q :: q != p ==> Live(q) == old(Live(q))
      ensures p.InPool? ==> chain == [p.id] + old(chain)
    {
      match p
      case InPool(_, id) =>
        assert nRef[id] == 1;
        PutBack(next[..], nRef[..], header, chain, id);
        nRef[id] := nRef[id] - 1;
        next[id] := header;
        header := id;
        chain := [id] + chain;
        assert nRef[..] == old(nRef[..])[id := 0] && next[..] == old(next[..])[id := old(header)];
      case OnHeap(h) =>
        heap := heap - {h};
    }
  }
}
