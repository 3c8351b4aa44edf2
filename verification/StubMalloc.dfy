/**
 The block allocator of stub_malloc.c: a 60 KB pool in blocks of 64 bytes and a table that
 holds, for every block of an allocated run, the length of that run.
 */
module StubMalloc {
  import opened Words
  import opened Wrappers

  datatype FreeResult = ErrOk | ErrRes | ErrInvalid

  const BLOCK_SIZE: nat := 64
  const TABLE_SIZE: nat := 960
  const POOL_SIZE: nat := 61440

  /** The number of blocks that `size` bytes need. */
  function Blocks(size: nat): (n: nat)
    ensures 64 * n >= size && 64 * n < size + 64
    ensures n == 0 <==> size == 0
  {
    size / 64 + if size % 64 != 0 then 1 else 0
  }

  /** `n` free blocks from block `at` on. */
  predicate FreeRun(table: seq<nat>, at: nat, n: nat) {
    at + n <= |table| && forall k :: at <= k < at + n ==> table[k] == 0
  }

  /** The table with `n` cells from `at` on set to `v`. */
  function Fill(table: seq<nat>, at: nat, n: nat, v: nat): (t: seq<nat>)
    requires at + n <= |table|
    ensures |t| == |table|
    ensures forall k :: 0 <= k < |t| ==> t[k] == if at <= k < at + n then v else table[k]
  {
    seq(|table|, k requires 0 <= k < |table| => if at <= k < at + n then v else table[k])
  }

  /** Block `k` lies in the run that starts at `s`. */
  ghost predicate InRun(live: map<nat, nat>, s: nat, k: nat) {
    s in live && s <= k < s + live[s]
  }

  /** Some live run covers block `k`. */
  ghost predicate InUse(live: map<nat, nat>, k: nat) {
    exists s: nat :: InRun(live, s, k)
  }

  /**
   The table describes the live runs (start block to length): they are disjoint, every cell
   of a run holds its length, and every other cell holds 0.
   */
  ghost predicate Describes(table: seq<nat>, live: map<nat, nat>) {
    && (forall s :: s in live ==> live[s] > 0 && s + live[s] <= |table|)
    && (forall s: nat, k: nat :: InRun(live, s, k) ==> table[k] == live[s])
    && (forall s, t :: s in live && t in live && s < t ==> s + live[s] <= t)
    && (forall k :: 0 <= k < |table| && table[k] != 0 ==> InUse(live, k))
  }

  /** Taking a free run keeps the description. */
  lemma DescribesAfterMalloc(table: seq<nat>, live: map<nat, nat>, at: nat, n: nat)
    requires Describes(table, live) && n > 0 && FreeRun(table, at, n)
    ensures at !in live
    ensures Describes(Fill(table, at, n, n), live[at := n])
  {
    if at in live { assert InRun(live, at, at); }
    var table', live' := Fill(table, at, n, n), live[at := n];
    forall s, t | s in live' && t in live' && s < t
      ensures s + live'[s] <= t
    {
      if t == at {
        FreeRunAvoids(table, live, s, at, n);
      } else if s == at {
        FreeRunAvoids(table, live, t, at, n);
      }
    }
    forall s: nat, k: nat | InRun(live', s, k)
      ensures table'[k] == live'[s]
    {
      if s != at { assert InRun(live, s, k); }
    }
    forall k | 0 <= k < |table'| && table'[k] != 0
      ensures InUse(live', k)
    {
      if at <= k < at + n {
        assert InRun(live', at, k);
      } else {
        var s: nat :| InRun(live, s, k);
        assert InRun(live', s, k);
      }
    }
  }

  /** Clearing a live run keeps the description. */
  lemma DescribesAfterFree(table: seq<nat>, live: map<nat, nat>, at: nat)
    requires Describes(table, live) && at in live
    ensures at + live[at] <= |table| && Describes(Fill(table, at, live[at], 0), live - {at})
  {
    var n := live[at];
    var table', live' := Fill(table, at, n, 0), live - {at};
    forall s: nat, k: nat | InRun(live', s, k)
      ensures table'[k] == live'[s]
    {
      assert InRun(live, s, k);
    }
    forall k | 0 <= k < |table'| && table'[k] != 0
      ensures InUse(live', k)
    {
      var s: nat :| InRun(live, s, k);
      assert InRun(live', s, k);
    }
  }

  /**
   Two ways to cut the same cells into runs of one length, one of them starting inside a run of
   the other, would have to go on for ever downwards.
   */
  lemma {:induction false} NoShiftedRuns(table: seq<nat>, live: map<nat, nat>, s: nat,
                                         table': seq<nat>, live': map<nat, nat>, s': nat, n: nat, at: nat)
    requires Describes(table, live) && Describes(table', live') && at <= |table| == |table'|
    requires forall k :: 0 <= k < at ==> table[k] == table'[k]
    requires s in live && live[s] == n && s' in live' && live'[s'] == n
    requires s' < s < s' + n <= at
    ensures false
    decreases s
  {
    assert InRun(live', s', s - 1);
    var r := RunBefore(table, live, s, n);
    assert InRun(live, r, s' - 1);
    var r' := RunBefore(table', live', s', n);
    NoShiftedRuns(table, live, r, table', live', r', n, at);
  }

  /** If the cell before a run has the label `n`, a run of length `n` ends there. */
  lemma RunBefore(table: seq<nat>, live: map<nat, nat>, s: nat, n: nat) returns (r: nat)
    requires Describes(table, live) && 0 < s <= |table| && n > 0 && table[s - 1] == n
    requires s in live || (s < |table| && table[s] != n) || s == |table|
    ensures r in live && live[r] == n && r + n == s
  {
    assert InUse(live, s - 1);
    r :| InRun(live, r, s - 1);
    if s in live {
      assert r + live[r] <= s;
    } else {
      assert InRun(live, r, s) <==> r <= s < r + live[r];
    }
  }

  /** Freeing a block inside a live run leaves a table that describes no set of runs at all. */
  lemma InteriorFreeBreaks(table: seq<nat>, live: map<nat, nat>, at: nat, live': map<nat, nat>)
    requires Describes(table, live) && at < |table| && at !in live && table[at] != 0 && at + table[at] <= |table|
    ensures !Describes(Fill(table, at, table[at], 0), live')
  {
    var n := table[at];
    var table' := Fill(table, at, n, 0);
    assert InUse(live, at);
    var s: nat :| InRun(live, s, at);
    assert InRun(live, s, at - 1);
    if Describes(table', live') {
      var s' := RunBefore(table', live', at, n);
      NoShiftedRuns(table, live, s, table', live', s', n, at);
    }
  }

  /** Freeing a run puts back the table from before its allocation. */
  lemma FreeUndoesMalloc(table: seq<nat>, at: nat, n: nat)
    requires FreeRun(table, at, n)
    ensures Fill(Fill(table, at, n, n), at, n, 0) == table
  {}

  /** The number of cells in use among the first `n`. */
  function Used(table: seq<nat>, n: nat): (u: nat)
    requires n <= |table|
    ensures u <= n
  {
    if n == 0 then 0 else Used(table, n - 1) + if table[n - 1] != 0 then 1 else 0
  }

  /** The blocks of the first `n` that some live run covers. */
  ghost function Covered(live: map<nat, nat>, n: nat): set<nat> {
    set k: nat | k < n && InUse(live, k)
  }

  /** The cells in use are exactly the blocks of live runs. */
  lemma {:induction false} UsedIsCovered(table: seq<nat>, live: map<nat, nat>, n: nat)
    requires Describes(table, live) && n <= |table|
    ensures Used(table, n) == |Covered(live, n)|
  {
    if n == 0 {
      assert Covered(live, 0) == {};
    } else {
      UsedIsCovered(table, live, n - 1);
      InUseIffNonzero(table, live, n - 1);
      CoveredStep(live, n);
      hide *;
      UsedStep(table, n);
    }
  }

  lemma UsedStep(table: seq<nat>, n: nat)
    requires 0 < n <= |table|
    ensures Used(table, n) == Used(table, n - 1) + if table[n - 1] != 0 then 1 else 0
  {}

  lemma CoveredStep(live: map<nat, nat>, n: nat)
    requires n > 0
    ensures |Covered(live, n)| == |Covered(live, n - 1)| + if InUse(live, n - 1) then 1 else 0
  {
    hide InUse;
    var before := Covered(live, n - 1);
    if InUse(live, n - 1) {
      assert Covered(live, n) == before + {n - 1};
    } else {
      assert Covered(live, n) == before;
    }
  }

  lemma InUseIffNonzero(table: seq<nat>, live: map<nat, nat>, k: nat)
    requires Describes(table, live) && k < |table|
    ensures InUse(live, k) <==> table[k] != 0
  {
    if InUse(live, k) {
      var s: nat :| InRun(live, s, k);
    }
  }

  /** Block `at` is used, but no run starts there. */
  predicate Interior(table: seq<nat>, live: map<nat, nat>, at: nat)
    requires at < |table|
  {
    at !in live && table[at] != 0
  }

  class StubHeap {
    const base: nat
    const memmap: array<nat>
    const mem: array<bv8>
    var memrdy: bool
    /** The allocations handed out and not yet freed, start block to length in blocks. */
    ghost var live: map<nat, nat>

    ghost predicate Sized() {
      && memmap.Length == TABLE_SIZE && mem.Length == POOL_SIZE
      && 0 < base && base + POOL_SIZE <= WORD
    }

    ghost predicate Valid()
      reads this, memmap
    {
      && Sized()
      && Describes(memmap[..], live)
      && (!memrdy ==> live == map[])
    }

    /** The static storage of the allocator. */
    constructor (base: nat)
      requires 0 < base && base + POOL_SIZE <= WORD
      ensures Valid() && live == map[] && !memrdy && this.base == base && fresh(memmap) && fresh(mem)
    {
      this.base := base;
      memmap := new nat[TABLE_SIZE](i => 0);
      mem := new bv8[POOL_SIZE](i => 0);
      memrdy := false;
      live := map[];
    }

    /** `stub_mem_init`. */
    method Init()
      requires Valid()
      modifies this, memmap
      ensures Valid() && memrdy && live == map[] && memmap[..] == Fill(old(memmap[..]), 0, TABLE_SIZE, 0)
    {
      for i := 0 to TABLE_SIZE
        invariant forall k :: 0 <= k < i ==> memmap[k] == 0
        modifies memmap
      {
        memmap[i] := 0;
      }
      memrdy := true;
      live := map[];
    }

    /**
     `_stub_malloc`: fails exactly if the size is 0 or no run of free blocks is long enough,
     and otherwise takes the highest one.
     */
    method Malloc(size: nat) returns (offset: Option<nat>)
      requires Valid() && size < WORD
      modifies this, memmap
      ensures Valid() && memrdy
      ensures offset.None? <==> size == 0 || forall at :: !FreeRun(old(memmap[..]), at, Blocks(size))
      ensures offset.None? ==> memmap[..] == old(memmap[..]) && live == old(live)
      ensures offset.Some? ==>
                var at, n := offset.value / BLOCK_SIZE, Blocks(size);
                && offset.value == at * BLOCK_SIZE
                && FreeRun(old(memmap[..]), at, n)
                && (forall b :: b > at ==> !FreeRun(old(memmap[..]), b, n))
                && memmap[..] == Fill(old(memmap[..]), at, n, n)
                && at !in old(live) && live == old(live)[at := n]
    {
      hide Describes;
      ghost var table := memmap[..];
      if !memrdy {
        NothingLive(table, live);
        Init();
        assert memmap[..] == table;
      }
      if size == 0 {
        return None;
      }
      var nmemb := size / BLOCK_SIZE;
      if size % BLOCK_SIZE != 0 {
        nmemb := nmemb + 1;
      }
      assert nmemb == Blocks(size);
      var cmemb := 0;
      var at := TABLE_SIZE;
      while at > 0
        invariant 0 <= at <= TABLE_SIZE && cmemb < nmemb && memmap[..] == table
        invariant FreeRun(table, at, cmemb)
        invariant at + cmemb < TABLE_SIZE ==> table[at + cmemb] != 0
        invariant forall b :: b >= at ==> !FreeRun(table, b, nmemb)
        modifies this`live, memmap
      {
        at := at - 1;
        if memmap[at] == 0 {
          cmemb := cmemb + 1;
        } else {
          cmemb := 0;
        }
        if cmemb == nmemb {
          Take(at, nmemb);
          return Some(at * BLOCK_SIZE);
        }
      }
      return None;
    }

    /** The loop that labels the cells of a run. */
    method Take(at: nat, nmemb: nat)
      requires Valid() && memrdy && nmemb > 0 && FreeRun(memmap[..], at, nmemb)
      modifies this`live, memmap
      ensures Valid() && memmap[..] == Fill(old(memmap[..]), at, nmemb, nmemb)
      ensures at !in old(live) && live == old(live)[at := nmemb]
    {
      ghost var table := memmap[..];
      for i := 0 to nmemb
        invariant memmap[..] == Fill(table, at, i, nmemb)
        modifies memmap
      {
        memmap[at + i] := nmemb;
      }
      DescribesAfterMalloc(table, live, at, nmemb);
      live := live[at := nmemb];
    }
  
    /**
     `_stub_mfree`, as long as it stays in the table. The heap stays described exactly if the
     offset is not inside a live run: in its first block, in a free block, or outside the pool.
     */
    method Mfree(offset: nat) returns (res: FreeResult)
      requires Valid() && offset < WORD
      requires memrdy && offset < POOL_SIZE ==> offset / BLOCK_SIZE + memmap[offset / BLOCK_SIZE] <= TABLE_SIZE
      modifies this, memmap
      ensures Sized() && memrdy
      ensures res == if !old(memrdy) then ErrRes else if offset < POOL_SIZE then ErrOk else ErrInvalid
      ensures res != ErrOk ==> Valid() && live == old(live) && memmap[..] == old(memmap[..])
      ensures res == ErrOk ==>
                var at := offset / BLOCK_SIZE;
                && memmap[..] == Fill(old(memmap[..]), at, old(memmap[at]), 0)
                && (Interior(old(memmap[..]), old(live), at) ==> forall l :: !Describes(memmap[..], l))
                && (!Interior(old(memmap[..]), old(live), at) ==> Valid() && live == old(live) - {at})
    {
      hide Describes;
      ghost var table := memmap[..];
      if !memrdy {
        NothingLive(table, live);
        Init();
        assert memmap[..] == table;
        return ErrRes;
      }
      if offset < POOL_SIZE {
        var index := offset / BLOCK_SIZE;
        var nmemb := memmap[index];
        for i := 0 to nmemb
          invariant memmap[..] == Fill(table, index, i, 0)
          modifies memmap
        {
          memmap[index + i] := 0;
        }
        if index in live {
          RunLength(table, live, index);
          DescribesAfterFree(table, live, index);
        } else if nmemb != 0 {
          forall l ensures !Describes(memmap[..], l) {
            InteriorFreeBreaks(table, live, index, l);
          }
        } else {
          assert memmap[..] == table && live - {index} == live;
        }
        live := live - {index};
        return ErrOk;
      }
      return ErrInvalid;
    }

    /** `stub_mem_malloc`: an address in the pool, or 0. */
    method MemMalloc(size: nat) returns (ptr: nat)
      requires Valid() && size < WORD
      modifies this, memmap
      ensures Valid() && memrdy
      ensures ptr == 0 <==> size == 0 || forall at :: !FreeRun(old(memmap[..]), at, Blocks(size))
      ensures ptr == 0 ==> live == old(live) && memmap[..] == old(memmap[..])
      ensures ptr != 0 ==>
                var at, n := (ptr - base) / BLOCK_SIZE, Blocks(size);
                && base <= ptr == base + at * BLOCK_SIZE
                && FreeRun(old(memmap[..]), at, n)
                && (forall b :: b > at ==> !FreeRun(old(memmap[..]), b, n))
                && memmap[..] == Fill(old(memmap[..]), at, n, n)
                && at !in old(live) && live == old(live)[at := n]
    {
      hide Describes;
      var offset := Malloc(size);
      match offset
      case None => ptr := 0;
      case Some(o) => ptr := base + o;
    }

    /** `stub_mem_free`: the null pointer is ignored, and the offset wraps below the pool. */
    method MemFree(ptr: nat)
      requires Valid() && ptr < WORD
      requires memrdy && InPool(ptr) ==> (ptr - base) / BLOCK_SIZE + memmap[(ptr - base) / BLOCK_SIZE] <= TABLE_SIZE
      modifies this, memmap
      ensures Sized()
      ensures !old(memrdy) || !InPool(ptr) ==> Valid() && live == old(live) && memmap[..] == old(memmap[..])
      ensures old(memrdy) && InPool(ptr) ==>
                var at := (ptr - base) / BLOCK_SIZE;
                && memmap[..] == Fill(old(memmap[..]), at, old(memmap[at]), 0)
                && (Interior(old(memmap[..]), old(live), at) ==> forall l :: !Describes(memmap[..], l))
                && (!Interior(old(memmap[..]), old(live), at) ==> Valid() && live == old(live) - {at})
    {
      hide Describes;
      if ptr == 0 {
        return;
      }
      var offset := (ptr - base) % WORD;
      assert base <= ptr ==> offset == ptr - base;
      assert ptr < base ==> offset == ptr - base + WORD >= POOL_SIZE;
      var res := Mfree(offset);
    }

    predicate InPool(ptr: nat)
      requires Sized()
    {
      base <= ptr < base + POOL_SIZE
    }

    /**
     `_stub_memcpy` into the pool: a forward copy that may read what it has written. `outside`
     are the bytes it reads where the source is not in the pool.
     */
    method Memcpy(des: nat, src: int, n: nat, outside: seq<bv8>)
      requires mem.Length == POOL_SIZE && des + n <= POOL_SIZE && n <= |outside|
      modifies mem
      ensures mem[..] == ForwardCopy(old(mem[..]), des, src, n, outside)
    {
      for i := 0 to n
        invariant mem[..] == ForwardCopy(old(mem[..]), des, src, i, outside)
      {
        mem[des + i] := if 0 <= src + i < POOL_SIZE then mem[src + i] else outside[i];
      }
    }

    /**
     `stub_mem_realloc` of a live pointer or the null pointer: the bytes of the old run move to
     the new one as far as both reach, wherever the copy reads beyond it; every other byte
     outside the new run stays, and a failure changes nothing.
     */
    method MemRealloc(ptr: nat, size: nat, outside: seq<bv8>) returns (r: nat)
      requires Valid() && memrdy && size < WORD && size <= |outside|
      requires ptr == 0 || (InPool(ptr) && (ptr - base) % BLOCK_SIZE == 0 && (ptr - base) / BLOCK_SIZE in live)
      modifies this, memmap, mem
      ensures Valid()
      ensures r == 0 <==> size == 0 || forall at :: !FreeRun(old(memmap[..]), at, Blocks(size))
      ensures r == 0 ==> live == old(live) && memmap[..] == old(memmap[..]) && mem[..] == old(mem[..])
      ensures r != 0 ==>
                var to := (r - base) / BLOCK_SIZE;
                && base <= r == base + to * BLOCK_SIZE && r - base + size <= POOL_SIZE && to !in old(live)
                && (forall k :: 0 <= k < POOL_SIZE && !(r - base <= k < r - base + size) ==> mem[k] == old(mem[k]))
                && (ptr == 0 ==> live == old(live)[to := Blocks(size)])
                && (ptr != 0 ==>
                      var from := (ptr - base) / BLOCK_SIZE;
                      && live == old(live)[to := Blocks(size)] - {from}
                      && (forall p :: r - base <= p < r - base + size && p < r - base + old(live)[from] * BLOCK_SIZE ==>
                            mem[p] == old(mem[..])[p - r + ptr]))
    {
      hide Describes, ForwardCopy, Fill;
      ghost var table, runs := memmap[..], live;
      ghost var from := if ptr == 0 then 0 else (ptr - base) / BLOCK_SIZE;
      ghost var kept := if ptr == 0 then 0 else runs[from] * BLOCK_SIZE;
      if ptr != 0 {
        RunLength(table, live, from);
      }
      var offset := Malloc(size);
      match offset {
        case None =>
          r := 0;
        case Some(o) =>
          ghost var to := o / BLOCK_SIZE;
          if ptr != 0 {
            FreeRunAvoids(table, runs, from, to, Blocks(size));
            RunLength(memmap[..], live, from);
            ForwardCopyDelivers(mem[..], o, ptr - base, size, kept, outside);
          } else {
            ForwardCopyStays(mem[..], o, ptr - base, size, outside);
          }
          Memcpy(o, ptr - base, size, outside);
          MemFree(ptr);
          r := base + o;
      }
    }

    /** `stub_mem_usepercent`: the share of blocks that live runs cover, rounded down. */
    method UsePercent() returns (percent: nat)
      requires Valid()
      ensures percent == 100 * |Covered(live, TABLE_SIZE)| / TABLE_SIZE
      ensures percent <= 100
    {
      var used := 0;
      for i := 0 to TABLE_SIZE
        invariant used == Used(memmap[..], i)
      {
        if memmap[i] != 0 {
          used := used + 1;
        }
      }
      UsedIsCovered(memmap[..], live, TABLE_SIZE);
      percent := used * 100 / TABLE_SIZE;
    }
  }

  /** The label of a run's first block is its length. */
  lemma RunLength(table: seq<nat>, live: map<nat, nat>, at: nat)
    requires Describes(table, live) && at in live
    ensures 0 < live[at] && at + live[at] <= |table|
    ensures forall k :: at <= k < at + live[at] ==> table[k] == live[at]
  {
    forall k: nat | at <= k < at + live[at]
      ensures table[k] == live[at]
    {
      assert InRun(live, at, k);
    }
  }

  /** A free run and a live run do not meet. */
  lemma FreeRunAvoids(table: seq<nat>, live: map<nat, nat>, at: nat, free: nat, n: nat)
    requires Describes(table, live) && at in live && n > 0 && FreeRun(table, free, n)
    ensures free + n <= at || at + live[at] <= free
  {
    RunLength(table, live, at);
    var p := if free <= at then at else free;
    assert p < free + n ==> table[p] == 0;
  }

  /** What a forward byte-by-byte copy leaves; it may read bytes that it has written, and bytes of `outside`. */
  function ForwardCopy(mem: seq<bv8>, des: nat, src: int, n: nat, outside: seq<bv8>): (r: seq<bv8>)
    requires des + n <= |mem| && n <= |outside|
    ensures |r| == |mem|
  {
    if n == 0 then mem
    else
      var r := ForwardCopy(mem, des, src, n - 1, outside);
      r[des + n - 1 := if 0 <= src + n - 1 < |mem| then r[src + n - 1] else outside[n - 1]]
  }

  lemma {:induction false} ForwardCopyStays(mem: seq<bv8>, des: nat, src: int, n: nat, outside: seq<bv8>)
    requires des + n <= |mem| && n <= |outside|
    ensures forall p :: 0 <= p < |mem| && !(des <= p < des + n) ==> ForwardCopy(mem, des, src, n, outside)[p] == mem[p]
  {
    if n > 0 {
      ForwardCopyStays(mem, des, src, n - 1, outside);
    }
  }

  /**
   Source bytes that the copy does not write arrive unchanged, however far the copy reads on
   beyond them, and nothing outside the destination changes.
   */
  lemma {:induction false} ForwardCopyDelivers(mem: seq<bv8>, des: nat, src: nat, n: nat, m: nat, outside: seq<bv8>)
    requires des + n <= |mem| && src + m <= |mem| && n <= |outside|
    requires src + m <= des || des + n <= src
    ensures var r := ForwardCopy(mem, des, src, n, outside);
            && (forall p :: des <= p < des + n && p < des + m ==> r[p] == mem[p - des + src])
            && (forall p :: 0 <= p < |mem| && !(des <= p < des + n) ==> r[p] == mem[p])
  {
    if n > 0 {
      ForwardCopyDelivers(mem, des, src, n - 1, m, outside);
    }
  }

  lemma NothingLive(table: seq<nat>, live: map<nat, nat>)
    requires Describes(table, live) && live == map[]
    ensures forall k :: 0 <= k < |table| ==> table[k] == 0
  {
    forall k | 0 <= k < |table|
      ensures table[k] == 0
    {
      InUseIffNonzero(table, live, k);
    }
  }
}
