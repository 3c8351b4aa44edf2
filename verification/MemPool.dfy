/**
 The fixed-chunk pool of ln_mem_pool.h: a stack of pointers to free chunks, and a flag byte in
 every chunk.
 */
module MemPool {
  import opened Words
  import opened Wrappers

  const FLAG_ALLOC: Byte := 0xAA
  const FLAG_FREE: Byte := 0x55
  const INFO_SIZE: nat := 2

  // ---------- the pool as a stack of chunk numbers ----------

  /** The free chunks, the next to be handed out last, and the chunks handed out. */
  datatype Pool = Pool(free: seq<nat>, live: set<nat>)

  ghost predicate Distinct(s: seq<nat>) {
    forall i, j :: 0 <= i < j < |s| ==> s[i] != s[j]
  }

  /** Every one of `total` chunks is either on the stack, once, or handed out. */
  ghost predicate Partition(p: Pool, total: nat) {
    && Distinct(p.free)
    && (forall i :: 0 <= i < |p.free| ==> p.free[i] < total && p.free[i] !in p.live)
    && (forall c :: c in p.live ==> c < total)
    && |p.free| + |p.live| == total
  }

  function Full(total: nat): (p: Pool) {
    Pool(seq(total, i requires 0 <= i < total => i), {})
  }

  function Taken(p: Pool): (Pool, Option<nat>) {
    if p.free == [] then (p, None)
    else
      var c := p.free[|p.free| - 1];
      (Pool(p.free[..|p.free| - 1], p.live + {c}), Some(c))
  }

  function Given(p: Pool, c: nat): (Pool, bool) {
    if c in p.live then (Pool(p.free + [c], p.live - {c}), true) else (p, false)
  }

  datatype Op = Alloc | Free(chunk: nat)

  function Apply(p: Pool, op: Op): Pool {
    match op
    case Alloc => Taken(p).0
    case Free(c) => Given(p, c).0
  }

  function Run(total: nat, ops: seq<Op>): Pool {
    if ops == [] then Full(total) else Apply(Run(total, ops[..|ops| - 1]), ops[|ops| - 1])
  }

  lemma TakenKeeps(p: Pool, total: nat)
    requires Partition(p, total)
    ensures Partition(Taken(p).0, total)
  {}

  lemma GivenKeeps(p: Pool, c: nat, total: nat)
    requires Partition(p, total)
    ensures Partition(Given(p, c).0, total)
  {}

  /** Conservation over every sequence of allocations and frees, also of chunks that are not live. */
  lemma {:induction false} RunKeeps(total: nat, ops: seq<Op>)
    ensures Partition(Run(total, ops), total)
  {
    if ops == [] {
    } else {
      RunKeeps(total, ops[..|ops| - 1]);
      var p := Run(total, ops[..|ops| - 1]);
      hide Partition, Run;
      match ops[|ops| - 1] {
        case Alloc => TakenKeeps(p, total);
        case Free(c) => GivenKeeps(p, c, total);
      }
    }
  }

  /** A free directly after an allocation undoes it; a second free of the chunk is rejected. */
  lemma FreeUndoesAlloc(p: Pool, total: nat)
    requires Partition(p, total) && p.free != []
    ensures var (p', c) := Taken(p);
            c.Some? && Given(p', c.value) == (p, true) && Given(p, c.value) == (p, false)
  {
    var c := p.free[|p.free| - 1];
    assert p.free[..|p.free| - 1] + [c] == p.free;
    assert p.live + {c} - {c} == p.live;
  }

  function UpTo(n: nat): (s: set<nat>)
    ensures forall c :: c in s <==> 0 <= c < n
    ensures |s| == n
  {
    if n == 0 then {} else UpTo(n - 1) + {n - 1}
  }

  function Elements(s: seq<nat>): set<nat> { set i | 0 <= i < |s| :: s[i] }

  lemma {:induction false} ElementsSize(s: seq<nat>)
    requires Distinct(s)
    ensures |Elements(s)| == |s|
  {
    if s != [] {
      var n := |s| - 1;
      ElementsSize(s[..n]);
      assert Elements(s) == Elements(s[..n]) + {s[n]};
    }
  }

  /** A chunk is on the stack exactly when it is not handed out. */
  lemma FreeExactly(p: Pool, total: nat, c: nat)
    requires Partition(p, total) && c < total
    ensures c in p.free <==> c !in p.live
  {
    ElementsSize(p.free);
    var f := Elements(p.free);
    if c !in p.live && c !in p.free {
      assert |f + p.live| == total;
      assert f + p.live <= UpTo(total) - {c};
      SubsetSize(f + p.live, UpTo(total) - {c});
      assert false;
    }
  }

  lemma SubsetSize(a: set<nat>, b: set<nat>)
    requires a <= b
    ensures |a| <= |b|
  {
    assert b == a + (b - a);
  }

  /** Allocation fails exactly when every chunk is handed out. */
  lemma ExhaustedExactly(p: Pool, total: nat)
    requires Partition(p, total)
    ensures Taken(p).1 == None <==> UpTo(total) == p.live
  {
    forall c | c in UpTo(total) || c in p.live
      ensures p.free == [] ==> (c in UpTo(total) <==> c in p.live)
    {
      if c < total {
        FreeExactly(p, total, c);
      }
    }
  }

  // ---------- the pool in memory ----------

  /** An address in the pool, or the null pointer. */
  datatype Ptr = Null | Addr(a: nat)

  function Base(c: nat, chunkSize: nat): nat { c * chunkSize }

  lemma BaseOrder(c: nat, d: nat, chunkSize: nat)
    requires c < d
    ensures Base(c, chunkSize) + chunkSize <= Base(d, chunkSize)
    ensures Base(c, chunkSize) + chunkSize == Base(c + 1, chunkSize)
  {
    assert (d - c - 1) * chunkSize >= 0;
    assert Base(d, chunkSize) == Base(c, chunkSize) + chunkSize + (d - c - 1) * chunkSize;
  }

  lemma BaseDistinct(chunkSize: nat)
    requires chunkSize >= INFO_SIZE
    ensures forall c: nat, d: nat :: c != d ==> Base(c, chunkSize) + 1 != Base(d, chunkSize) + 1 && Base(c, chunkSize) != Base(d, chunkSize) + 1
  {
    forall c: nat, d: nat | c != d
      ensures Base(c, chunkSize) + 1 != Base(d, chunkSize) + 1 && Base(c, chunkSize) != Base(d, chunkSize) + 1
    {
      if c < d { BaseOrder(c, d, chunkSize); } else { BaseOrder(d, c, chunkSize); }
    }
  }

  /** The buffers of two chunks do not overlap, and no buffer holds an id or a flag. */
  lemma BuffersDisjoint(c: nat, d: nat, j: nat, k: nat, chunkSize: nat)
    requires INFO_SIZE <= j < chunkSize && k < chunkSize && (c != d || k < INFO_SIZE)
    ensures Base(c, chunkSize) + j != Base(d, chunkSize) + k
  {
    if c < d {
      BaseOrder(c, d, chunkSize);
    } else if d < c {
      BaseOrder(d, c, chunkSize);
    }
  }

  lemma BaseIs(c: nat, chunkSize: nat)
    ensures Base(c, chunkSize) == c * chunkSize
  {}

  class MemPool {
    const mem: array<Byte>
    const freeChunkPtr: array<nat>
    const totalChunkCnt: nat
    const chunkSize: nat
    var freeChunkCnt: nat
    /** The chunks on the stack and those handed out. */
    ghost var view: Pool

    ghost predicate Sized() {
      && INFO_SIZE <= chunkSize && totalChunkCnt <= freeChunkPtr.Length && totalChunkCnt < 0x1_0000
      && Base(totalChunkCnt, chunkSize) <= mem.Length
      && (forall c :: 0 <= c < totalChunkCnt ==> Base(c, chunkSize) + INFO_SIZE <= mem.Length)
      && (mem as object) != (freeChunkPtr as object)
    }

    function Flag(c: nat): Byte
      requires Sized() && c < totalChunkCnt
      reads mem
    {
      mem[Base(c, chunkSize) + 1]
    }

    /** Stack, counter and flags are those of the pool `v`. */
    ghost predicate DescribedBy(v: Pool)
      reads this, mem, freeChunkPtr
    {
      && Sized() && Partition(v, totalChunkCnt) && freeChunkCnt == |v.free|
      && (forall i :: 0 <= i < freeChunkCnt ==> freeChunkPtr[i] == Base(v.free[i], chunkSize))
      && (forall c :: 0 <= c < totalChunkCnt ==> Flag(c) == if c in v.live then FLAG_ALLOC else FLAG_FREE)
    }

    ghost predicate Valid()
      reads this, mem, freeChunkPtr
    {
      DescribedBy(view)
    }

    /** The address of a chunk's buffer. */
    ghost predicate IsBuffer(a: nat) {
      exists c: nat :: c < totalChunkCnt && a == Base(c, chunkSize) + INFO_SIZE
    }

    constructor (mem: array<Byte>, freeChunkPtr: array<nat>, totalChunkCnt: nat, chunkSize: nat)
      requires INFO_SIZE <= chunkSize && totalChunkCnt <= freeChunkPtr.Length && totalChunkCnt < 0x1_0000
      requires Base(totalChunkCnt, chunkSize) <= mem.Length
      requires (mem as object) != (freeChunkPtr as object)
      ensures this.mem == mem && this.freeChunkPtr == freeChunkPtr && this.totalChunkCnt == totalChunkCnt && this.chunkSize == chunkSize
      ensures Sized()
    {
      this.mem, this.freeChunkPtr, this.totalChunkCnt, this.chunkSize := mem, freeChunkPtr, totalChunkCnt, chunkSize;
      freeChunkCnt := 0;
      view := Full(0);
      new;
      forall c | 0 <= c < totalChunkCnt
        ensures Base(c, chunkSize) + INFO_SIZE <= mem.Length
      {
        BaseOrder(c, totalChunkCnt, chunkSize);
      }
    }

    /** `ln_mem_pool_init`. */
    method Init()
      requires Sized()
      modifies this`freeChunkCnt, this`view, mem, freeChunkPtr
      ensures Valid() && view == Full(totalChunkCnt)
      ensures freeChunkCnt == totalChunkCnt && forall i :: 0 <= i < totalChunkCnt ==> freeChunkPtr[i] == i * chunkSize
    {
      hide Base, Partition;
      var chunk := 0;
      freeChunkCnt := 0;
      ZeroBase(chunkSize);
      for i := 0 to totalChunkCnt
        invariant Sized() && chunk == Base(i, chunkSize) && freeChunkCnt == i
        invariant forall k :: 0 <= k < i ==> freeChunkPtr[k] == Base(k, chunkSize)
        invariant forall c :: 0 <= c < i ==> Flag(c) == FLAG_FREE
        modifies this`freeChunkCnt, mem, freeChunkPtr
      {
        InitChunk(i, chunk);
        freeChunkPtr[freeChunkCnt] := chunk;
        freeChunkCnt := freeChunkCnt + 1;
        BaseOrder(i, i + 1, chunkSize);
        chunk := chunk + chunkSize;
      }
      FullPartition(totalChunkCnt);
      view := Full(totalChunkCnt);
      forall i | 0 <= i < totalChunkCnt
        ensures freeChunkPtr[i] == i * chunkSize
      {
        BaseIs(i, chunkSize);
      }
    }

    /** The id and the flag of a new chunk. */
    method InitChunk(i: nat, chunk: nat)
      requires Sized() && i < totalChunkCnt && chunk == Base(i, chunkSize)
      modifies mem
      ensures forall c :: 0 <= c < totalChunkCnt && c != i ==> Flag(c) == old(Flag(c))
      ensures Flag(i) == FLAG_FREE && mem[chunk] == i % 256
    {
      hide Base;
      BaseDistinct(chunkSize);
      mem[chunk] := i % 256;
      mem[chunk + 1] := FLAG_FREE;
    }

    /** Bytes other than the flag of chunk `c` are as before. */
    twostate predicate OnlyFlag(c: nat)
      reads mem
    {
      forall k :: 0 <= k < mem.Length && k != Base(c, chunkSize) + 1 ==> mem[k] == old(mem[k])
    }

    /** `ln_mem_pool_alloc`. */
    method Alloc() returns (p: Ptr)
      requires Valid()
      modifies this`freeChunkCnt, this`view, mem
      ensures Valid() && view == Taken(old(view)).0
      ensures match Taken(old(view)).1
              case None => p == Null && mem[..] == old(mem[..])
              case Some(c) => p == Addr(Base(c, chunkSize) + INFO_SIZE) && OnlyFlag(c)
      ensures p == if old(freeChunkCnt) == 0 then Null else Addr(old(freeChunkPtr[freeChunkCnt - 1]) + 2)
    {
      hide Base, Partition;
      if freeChunkCnt == 0 {
        return Null;
      }
      TakenKeeps(view, totalChunkCnt);
      StackTop(view, totalChunkCnt);
      ghost var c := view.free[|view.free| - 1];
      freeChunkCnt := freeChunkCnt - 1;
      var chunk := freeChunkPtr[freeChunkCnt];
      assert mem[chunk + 1] == Flag(c);
      if mem[chunk + 1] == FLAG_FREE {
        SetFlag(c, chunk, FLAG_ALLOC);
        p := Addr(chunk + INFO_SIZE);
        view := Taken(view).0;
      } else {
        assert false;
      }
    }

    /** The flag byte of chunk `c` is written. */
    method SetFlag(ghost c: nat, chunk: nat, flag: Byte)
      requires Sized() && c < totalChunkCnt && chunk == Base(c, chunkSize)
      modifies mem
      ensures OnlyFlag(c) && Flag(c) == flag
      ensures forall d :: 0 <= d < totalChunkCnt && d != c ==> Flag(d) == old(Flag(d))
    {
      hide Base;
      BaseDistinct(chunkSize);
      mem[chunk + 1] := flag;
    }

    /**
     `ln_mem_pool_free` of the null pointer or of any address in the memory of the pool. For the
     buffer of a chunk it is exact; an address that is no buffer and is not rejected leaves a
     pool that no stack of chunks describes.
     */
    method Free(p: Ptr) returns (ok: bool)
      requires Valid()
      requires p.Addr? ==> INFO_SIZE <= p.a <= mem.Length
      modifies this`freeChunkCnt, this`view, mem, freeChunkPtr
      ensures Sized()
      ensures ok <==> p.Addr? && old(mem[p.a - 1]) == FLAG_ALLOC && old(freeChunkCnt) < totalChunkCnt
      ensures !ok ==> Valid() && view == old(view) && mem[..] == old(mem[..]) && freeChunkPtr[..] == old(freeChunkPtr[..])
      ensures ok ==>
                && freeChunkCnt == old(freeChunkCnt) + 1
                && mem[..] == old(mem[..])[p.a - 1 := FLAG_FREE]
                && freeChunkPtr[..] == old(freeChunkPtr[..])[old(freeChunkCnt) := p.a - INFO_SIZE]
      ensures ok ==> (IsBuffer(p.a) <==> exists v :: DescribedBy(v))
      ensures forall c: nat :: c < totalChunkCnt && p == Addr(Base(c, chunkSize) + INFO_SIZE) ==>
                Valid() && (view, ok) == Given(old(view), c)
    {
      hide Base, Partition;
      if p == Null {
        return false;
      }
      var chunk := p.a - INFO_SIZE;
      ghost var buffer, c := FindChunk(p.a);
      if mem[chunk + 1] != FLAG_ALLOC {
        return false;
      }
      if buffer {
        LiveLeavesRoom(view, totalChunkCnt, c);
      }
      if freeChunkCnt >= totalChunkCnt {
        return false;
      }
      ghost var n := freeChunkCnt;
      freeChunkPtr[freeChunkCnt] := chunk;
      freeChunkCnt := freeChunkCnt + 1;
      mem[chunk + 1] := FLAG_FREE;
      if buffer {
        Returned(c);
      } else {
        forall v ensures !DescribedBy(v) {
          NotDescribed(v, n);
        }
      }
      return true;
    }

    /** Whether an address is a buffer, and then the only chunk it belongs to. */
    ghost method FindChunk(a: nat) returns (buffer: bool, c: nat)
      requires Valid()
      ensures buffer <==> IsBuffer(a)
      ensures buffer ==> c < totalChunkCnt && a == Base(c, chunkSize) + INFO_SIZE && mem[a - 1] == Flag(c)
      ensures buffer ==> forall d: nat :: d < totalChunkCnt && a == Base(d, chunkSize) + INFO_SIZE ==> d == c
    {
      hide Base, Partition;
      buffer, c := IsBuffer(a), 0;
      if buffer {
        c :| c < totalChunkCnt && a == Base(c, chunkSize) + INFO_SIZE;
        BaseDistinct(chunkSize);
      }
    }

    /** The chunk that was just pushed joins the free ones. */
    ghost method Returned(c: nat)
      requires Sized() && Partition(view, totalChunkCnt) && c < totalChunkCnt && c in view.live
      requires freeChunkCnt == |view.free| + 1 <= freeChunkPtr.Length && freeChunkPtr[|view.free|] == Base(c, chunkSize)
      requires forall i :: 0 <= i < |view.free| ==> freeChunkPtr[i] == Base(view.free[i], chunkSize)
      requires forall d :: 0 <= d < totalChunkCnt ==> Flag(d) == if d in view.live && d != c then FLAG_ALLOC else FLAG_FREE
      modifies this`view
      ensures Valid() && view == Given(old(view), c).0
    {
      hide Base, Partition;
      GivenKeeps(view, c, totalChunkCnt);
      view := Given(view, c).0;
    }

    lemma DescribedPointers(v: Pool, n: nat)
      requires DescribedBy(v) && n < freeChunkCnt
      ensures IsBuffer(freeChunkPtr[n] + INFO_SIZE)
    {
      hide Base;
      assert v.free[n] < totalChunkCnt && freeChunkPtr[n] == Base(v.free[n], chunkSize);
    }

    lemma NotDescribed(v: Pool, n: nat)
      requires Sized() && n < freeChunkCnt && n < freeChunkPtr.Length && !IsBuffer(freeChunkPtr[n] + INFO_SIZE)
      ensures !DescribedBy(v)
    {
      if DescribedBy(v) {
        DescribedPointers(v, n);
      }
    }
  }

  lemma FullPartition(total: nat)
    ensures Partition(Full(total), total)
  {}

  lemma ZeroBase(chunkSize: nat)
    ensures Base(0, chunkSize) == 0
  {}

  lemma StackTop(p: Pool, total: nat)
    requires Partition(p, total) && p.free != []
    ensures p.free[|p.free| - 1] < total && p.free[|p.free| - 1] !in p.live
  {}

  lemma LiveLeavesRoom(p: Pool, total: nat, c: nat)
    requires Partition(p, total) && c in p.live
    ensures |p.free| < total
  {}
}
