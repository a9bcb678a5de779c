/**
 The buffer pool: one singly linked free list per capacity class, an account of the memory handed
 to the pool, allocation from the smallest class that fits, and return to the class of the buffer.
 */
module BufferPool {
  import opened IoBuffer

  const M4K := 4096
  const M16K := 16384
  const M64K := 65536
  const M256K := 262144
  const M1M := 1048576
  const M4M := 4194304
  const M8M := 8388608

  /** In KB: 5 GB. */
  const EXTRA_MEM_LIMIT := 5 * 1024 * 1024

  /** Memory the constructor allocates without entering it in the account, in KB: one buffer more than
      counted in every class, and 20 + 1 rather than 10 of the largest. */
  const UNCOUNTED := 4 + 16 + 64 + 256 + 1024 + 4096 + 11 * 8192

  predicate IsClass(c: int) {
    c == M4K || c == M16K || c == M64K || c == M256K || c == M1M || c == M4M || c == M8M
  }

  /** The classes a request can be served from: all but 16K. */
  predicate Reachable(c: int) {
    IsClass(c) && c != M16K
  }

  /** The class that serves a request for `n` bytes, 0 if none does. */
  function ClassFor(n: int): (c: int)
    ensures c == 0 <==> n < 0 || n > M8M
    ensures c != 0 ==> Reachable(c) && n <= c && forall d | Reachable(d) && n <= d :: c <= d
  {
    if n < 0 then 0
    else if n <= M4K then M4K
    else if n <= M64K then M64K
    else if n <= M256K then M256K
    else if n <= M1M then M1M
    else if n <= M4M then M4M
    else if n <= M8M then M8M
    else 0
  }

  datatype Block = Block(size: int, extra: nat, counted: nat)

  const BLOCKS := 7

  /** What the constructor allocates: one buffer and then `extra` more per class, `counted` of them in the account. */
  function BlockAt(i: nat): Block
    requires i < BLOCKS
  {
    if i == 0 then Block(M4K, 5000, 5000)
    else if i == 1 then Block(M16K, 1000, 1000)
    else if i == 2 then Block(M64K, 500, 500)
    else if i == 3 then Block(M256K, 200, 200)
    else if i == 4 then Block(M1M, 50, 50)
    else if i == 5 then Block(M4M, 20, 20)
    else Block(M8M, 20, 10)
  }

  lemma ClassPositive(c: int)
    requires IsClass(c)
    ensures c > 0
  {
  }

  lemma ClassInTable(c: int)
    requires IsClass(c)
    ensures exists k | 0 <= k < BLOCKS :: BlockAt(k).size == c
  {
    assert BlockAt(0).size == M4K && BlockAt(1).size == M16K && BlockAt(2).size == M64K && BlockAt(3).size == M256K;
    assert BlockAt(4).size == M1M && BlockAt(5).size == M4M && BlockAt(6).size == M8M;
  }

  lemma BlocksAscend(i: nat)
    requires i < BLOCKS
    ensures IsClass(BlockAt(i).size) && (i > 0 ==> BlockAt(i - 1).size < BlockAt(i).size)
  {
  }

  ghost function CountedMem(n: nat): nat
    requires n <= BLOCKS
  {
    if n == 0 then 0 else
      var entry := BlockAt(n - 1);
      assert entry.size >= 0;
      CountedMem(n - 1) + entry.counted * (entry.size / 1024)
  }

  lemma CountedTotal()
    ensures CountedMem(7) == 334240
  {
    assert CountedMem(2) == 5000 * 4 + 1000 * 16;
    assert CountedMem(4) == CountedMem(2) + 500 * 64 + 200 * 256;
    assert CountedMem(6) == CountedMem(4) + 50 * 1024 + 20 * 4096;
  }

  /** The program tests the wrong variable after allocating a new buffer, so that it always gives up
      there. `AsWritten` is that test, `Intended` the test of the new buffer. */
  datatype GrowthTest = AsWritten | Intended

  /** `NoBuffer` is the null result; `Exit` ends the process. */
  datatype Alloc = Buffer(buf: IoBuf) | NoBuffer | Exit

  class BufPool {
    const growthTest: GrowthTest
    var pool: map<int, IoBuf?>          // capacity class : head of the free list
    var totalMem: nat                   // in KB

    ghost var all: set<IoBuf>            // every buffer ever made
    ghost var free: map<int, seq<IoBuf>> // the free lists as stacks: the head of the list comes last
    ghost var lent: map<IoBuf, object>   // who holds each buffer that is in no free list

    /** The buffers nobody holds. */
    ghost function FreeBufs(): set<IoBuf>
      reads this`all, this`lent
    {
      set b | b in all && b !in lent
    }

    ghost predicate ListOf(c: int)
      requires Partition(all, lent.Keys, free) && c in free && c in pool
      reads this`pool, this`free, this`lent, this`all, (set b | b in all && b !in lent)
    {
      var stack := free[c];
      assert forall b | b in stack :: b in all && b !in lent;
      Linked(c, 0, stack) && pool[c] == Top(stack)
    }

    /** Each free list is linked through its buffers, without cycle, from the head kept in `pool`. */
    ghost predicate Lists()
      requires Partition(all, lent.Keys, free)
      reads this`pool, this`free, this`lent, this`all, (set b | b in all && b !in lent)
    {
      && pool.Keys == free.Keys
      && forall c | c in free :: ListOf(c)
    }

    /** The lists are acyclic, disjoint and of one capacity each; every buffer is in the list of its
        class or held by somebody, and never both; no two buffers share an array. */
    ghost predicate Valid()
      reads this`pool, this`free, this`lent, this`all, (set b | b in all && b !in lent)
    {
      && Partition(all, lent.Keys, free)
      && Unshared(all)
      && Lists()
    }

    ghost function TrueMem(): nat
      reads this`all
    {
      Memory(all)
    }

    ghost predicate Accounted()
      reads this`all, this`totalMem
    {
      TrueMem() == totalMem + UNCOUNTED && totalMem <= EXTRA_MEM_LIMIT
    }

    /** Every class has its list, and the memory account is right. */
    ghost predicate Ready()
      reads this`pool, this`free, this`lent, this`all, this`totalMem, (set b | b in all && b !in lent)
    {
      && Valid() && Accounted()
      && forall c | IsClass(c) :: c in free
    }

    /** The free list of a class, as a stack. */
    ghost function Stack(c: int): seq<IoBuf>
      reads this`free
    {
      if c in free then free[c] else []
    }

    /** Some class has no buffer left: the only situation in which the pool may end the process. */
    ghost predicate RunsOut()
      reads this`free
    {
      exists c | Reachable(c) :: Stack(c) == []
    }

    /** What an operation on the pool may touch besides its own arguments. */
    ghost function FreeObjects(): set<object>
      reads this`all, this`lent
    {
      (set b | b in all && b !in lent :: b as object) + (set b | b in all && b !in lent :: b.data as object)
    }

    /** The seven blocks of the constructor are one loop over the table here. */
    constructor (test: GrowthTest)
      ensures Ready()
      ensures growthTest == test && lent == map[] && totalMem == 334240
      ensures Holds(4096, 5001) && Holds(16384, 1001) && Holds(65536, 501) && Holds(262144, 201)
      ensures Holds(1048576, 51) && Holds(4194304, 21) && Holds(8388608, 21)
      ensures forall b | b in all :: fresh(b)
    {
      hide Holds, Accounted, IsClass, Unshared;
      growthTest := test;
      pool := map[];
      totalMem := 0;
      all, free, lent := {}, map[], map[];
      new;
      Fill();
    }

    lemma Census()
      requires forall k | 0 <= k < BLOCKS :: Holds(BlockAt(k).size, BlockAt(k).extra + 1)
      ensures Holds(4096, 5001) && Holds(16384, 1001) && Holds(65536, 501) && Holds(262144, 201)
      ensures Holds(1048576, 51) && Holds(4194304, 21) && Holds(8388608, 21)
    {
      hide Holds;
      assert Holds(BlockAt(0).size, BlockAt(0).extra + 1) && Holds(BlockAt(1).size, BlockAt(1).extra + 1);
      assert Holds(BlockAt(2).size, BlockAt(2).extra + 1) && Holds(BlockAt(3).size, BlockAt(3).extra + 1);
      assert Holds(BlockAt(4).size, BlockAt(4).extra + 1) && Holds(BlockAt(5).size, BlockAt(5).extra + 1);
      assert Holds(BlockAt(6).size, BlockAt(6).extra + 1);
    }

    method Fill()
      requires all == {} && free == map[] && lent == map[] && pool == map[] && totalMem == 0
      modifies this`pool, this`all, this`free, this`totalMem
      ensures Ready() && totalMem == 334240
      ensures Holds(4096, 5001) && Holds(16384, 1001) && Holds(65536, 501) && Holds(262144, 201)
      ensures Holds(1048576, 51) && Holds(4194304, 21) && Holds(8388608, 21)
      ensures forall b | b in all :: fresh(b)
    {
      assert Valid();
      hide Valid, Holds, Accounted;
      Prefill();
      Stocked();
      Census();
    }

    lemma Stocked()
      requires Valid() && lent == map[] && totalMem == CountedMem(BLOCKS)
      requires forall k | 0 <= k < BLOCKS :: Holds(BlockAt(k).size, BlockAt(k).extra + 1)
      ensures Ready() && totalMem == 334240
    {
      hide Valid, BlockAt, Memory, IsClass;
      CountListed();
      CountedTotal();
      MemoryAtStart(all);
      forall c | IsClass(c)
        ensures c in free
      {
        ClassInTable(c);
      }
    }

    method Prefill()
      requires Valid() && lent == map[] && free.Keys == {} && totalMem == 0
      modifies this`pool, this`all, this`free, this`totalMem
      ensures Valid()
      ensures forall k | 0 <= k < BLOCKS :: Holds(BlockAt(k).size, BlockAt(k).extra + 1)
      ensures forall b | b in all && b !in old(all) :: fresh(b)
      ensures totalMem == CountedMem(BLOCKS)
    {
      hide Valid, Holds, BlockAt;
      for i := 0 to BLOCKS
        invariant Valid()
        invariant forall k | 0 <= k < i :: Holds(BlockAt(k).size, BlockAt(k).extra + 1)
        invariant forall c | c in free :: i > 0 && c <= BlockAt(i - 1).size
        invariant forall k | 0 <= k < i :: BlockAt(k).size <= BlockAt(i - 1).size
        invariant forall b | b in all && b !in old(all) :: fresh(b)
        invariant totalMem == CountedMem(i)
      {
        BlocksAscend(i);
        FillClass(BlockAt(i));
      }
    }

    ghost predicate Holds(c: int, n: nat)
      reads this`free
    {
      c in free && |free[c]| == n
    }

    /** Makes the first buffer of a class and then `extra` more, each linked behind the previous one. */
    method FillClass(block: Block)
      requires Valid() && IsClass(block.size) && block.size !in free && lent == map[]
      modifies this`pool, this`all, this`free, this`totalMem
      ensures Valid()
      ensures forall d | d != block.size :: d in free <==> d in old(free)
      ensures Holds(block.size, block.extra + 1)
      ensures forall d, n | d != block.size :: Holds(d, n) == old(Holds(d, n))
      ensures forall b | b in all && b !in old(all) :: fresh(b)
      ensures totalMem == old(totalMem) + block.counted * (block.size / 1024)
    {
      hide Linked, Partition, IsClass;
      assert block.size > 0 by { ClassPositive(block.size); }
      var first, stack := BuildList(block.size, block.extra);
      totalMem := totalMem + block.counted * (block.size / 1024);
      Install(block.size, first, stack);
    }

    /** Makes a finished list the free list of its class. */
    method Install(c: int, first: IoBuf?, ghost stack: seq<IoBuf>)
      requires Valid() && IsClass(c) && c !in free && lent == map[]
      requires first == Top(stack) && Linked(c, 0, stack)
      requires forall b | b in stack :: b !in all
      requires Unshared(all + Members(stack))
      modifies this`pool, this`all, this`free
      ensures Valid()
      ensures free == old(free)[c := stack]
      ensures all == old(all) + Members(stack)
    {
      hide Below, Linked, Partition, Unshared;
      assert lent.Keys == {};
      assert forall b | b in stack :: b.capacity == c && b.Valid() by {
        forall b | b in stack { LinkedMember(c, 0, stack, b); }
      }
      ghost var added := Members(stack);
      PartitionInstall(all, free, c, stack, added);
      pool := pool[c := first];
      free := free[c := stack];
      all := all + added;
    }

    /** Hands out an empty buffer of the smallest reachable class that holds `n` bytes: the head of the
        free list or, when the list is empty and the account allows it, a new one. */
    method AllocBuf(n: int, ghost who: object) returns (r: Alloc)
      requires Ready()
      modifies this`pool, this`totalMem, this`all, this`free, this`lent, FreeBufs()`next
      ensures Ready()
      ensures r.NoBuffer? <==> n < 0 || n > 8388608
      ensures r.Exit? <==> (0 <= n <= 8388608 && old(Stack(ClassFor(n))) == [] &&
          (old(totalMem) + ClassFor(n) / 1024 > 5242880 || growthTest.AsWritten?))
      ensures !r.Buffer? ==> unchanged(this)
      ensures r.Exit? ==> RunsOut()
      ensures r.Buffer? ==>
        && r.buf.capacity == ClassFor(n) && r.buf.Valid() && r.buf.head == r.buf.length == 0 && r.buf.next == null
        && r.buf in all && (r.buf !in old(all) ==> fresh(r.buf) && fresh(r.buf.data))
        && r.buf !in old(lent) && lent == old(lent)[r.buf := who]
      ensures r.Buffer? && old(Stack(ClassFor(n))) != [] ==>
        && r.buf == Top(old(Stack(ClassFor(n)))) && all == old(all) && totalMem == old(totalMem)
        && free == old(free)[ClassFor(n) := Rest(old(Stack(ClassFor(n))))]
      ensures r.Buffer? && old(Stack(ClassFor(n))) == [] ==>
        && r.buf !in old(all) && all == old(all) + {r.buf} && free == old(free)
        && totalMem == old(totalMem) + ClassFor(n) / 1024
    {
      hide Valid, Accounted, IsClass, ClassFor;
      var index := ClassFor(n);
      if index == 0 {
        return NoBuffer;
      }
      HeadOfList(index);
      var buf := pool[index];
      if buf == null {
        if totalMem + index / 1024 > EXTRA_MEM_LIMIT || growthTest.AsWritten? {
          return Exit;
        }
        buf := Grow(index, who);
      } else {
        Take(index, buf, who);
      }
      return Buffer(buf);
    }

    /** Takes a buffer back: emptied, it becomes the head of the list of its class. */
    method Revert(buf: IoBuf)
      requires Ready() && buf in lent
      modifies this`pool, this`free, this`lent, buf`next, buf`head, buf`length, buf`rank
      ensures Ready()
      ensures lent == old(lent) - {buf}
      ensures free == old(free)[buf.capacity := old(Stack(buf.capacity)) + [buf]]
    {
      hide Valid, Accounted, IsClass;
      ghost var before := lent;
      ClearAndLink(buf);
      assert free.Keys == old(free.Keys);
      assert before == old(lent);
    }

    method ClearAndLink(buf: IoBuf)
      requires Valid() && buf in lent
      modifies this`pool, this`free, this`lent, buf`next, buf`head, buf`length, buf`rank
      ensures Valid() && lent == old(lent) - {buf}
      ensures buf.capacity in old(free)
      ensures free == old(free)[buf.capacity := old(Stack(buf.capacity)) + [buf]]
    {
      hide Linked, Below, Partition, Unshared;
      Shaped(buf);
      PartitionPut(all, lent.Keys, free, buf);
      buf.Clear();
      var index := buf.capacity;
      LinkTo(buf, index, pool[index], free[index]);
      pool := pool[index := buf];
      free := free[index := free[index] + [buf]];
      lent := lent - {buf};
      assert lent.Keys == old(lent.Keys) - {buf};
      assert Partition(all, lent.Keys, free);
      assert Lists() by {
        forall c | c in free
          ensures Linked(c, 0, free[c]) && pool[c] == Top(free[c])
        {
          if c != index {
            assert free[c] == old(free[c]) && old(Linked(c, 0, free[c]));
          }
        }
      }
    }

    lemma Shaped(b: IoBuf)
      requires Valid() && b in lent
      ensures b in all && b.data.Length == b.capacity
    {
      hide Linked, Below;
    }

    /** A held buffer shares nothing with the free ones, nor its array with any other buffer. */
    lemma HeldApart(b: IoBuf)
      requires Ready() && b in lent
      ensures b in all && IsClass(b.capacity) && b.data.Length == b.capacity
      ensures b !in FreeBufs() && b as object !in FreeObjects() && b.data as object !in FreeObjects()
      ensures forall x | x in all && x != b :: x.data != b.data
    {
    }

    lemma HeadOfList(c: int)
      requires Valid() && c in free
      ensures c in pool && pool[c] == Top(free[c])
      ensures forall b | b in free[c] :: b in all && b !in lent
    {
    }

    method Take(c: int, buf: IoBuf, ghost who: object)
      requires Ready() && c in free && free[c] != [] && buf == pool[c]
      modifies this`pool, this`free, this`lent, buf`next
      ensures Ready()
      ensures buf == Top(old(free[c])) && buf.next == null && buf in all && buf !in old(lent)
      ensures buf.capacity == c && buf.Valid() && buf.head == buf.length == 0
      ensures lent == old(lent)[buf := who]
      ensures free == old(free)[c := Rest(old(free[c]))]
    {
      hide Linked, Below, Partition, Unshared, Accounted;
      LinkedTop(c, free[c]);
      PartitionTake(all, lent.Keys, free, c, buf);
      pool := pool[c := buf.next];
      buf.next := null;
      free := free[c := Rest(free[c])];
      lent := lent[buf := who];
      assert lent.Keys == old(lent.Keys) + {buf};
    }

    method Grow(c: int, ghost who: object) returns (buf: IoBuf)
      requires Ready() && c in free && free[c] == [] && totalMem + c / 1024 <= EXTRA_MEM_LIMIT
      modifies this`totalMem, this`all, this`lent
      ensures Ready()
      ensures fresh(buf) && fresh(buf.data)
      ensures buf.capacity == c && buf.Valid() && buf.head == buf.length == 0 && buf.next == null
      ensures all == old(all) + {buf} && lent == old(lent)[buf := who]
      ensures totalMem == old(totalMem) + c / 1024
    {
      hide Linked, Below, Partition, Memory, Unshared, IsClass;
      PartitionClass(all, lent.Keys, free, c);
      buf := new IoBuf(c);
      PartitionGrow(all, lent.Keys, free, buf);
      UnsharedGrow(all, buf);
      AccountGrowth(all, buf);
      totalMem := totalMem + c / 1024;
      all := all + {buf};
      lent := lent[buf := who];
      assert lent.Keys == old(lent.Keys) + {buf};
      assert Partition(all, lent.Keys, free);
      assert Unshared(all);
      assert Lists();
      assert Accounted();
    }

    /** While nothing is lent, the buffers made are those in the lists. */
    lemma CountListed()
      requires Valid() && lent == map[]
      ensures forall c, n | Holds(c, n) :: |InClass(all, c)| == n
    {
      forall c, n | Holds(c, n)
        ensures |InClass(all, c)| == n
      {
        assert InClass(all, c) == Members(free[c]);
        DistinctCount(free[c]);
      }
    }
  }

  function Rest<T>(stack: seq<T>): seq<T> {
    if stack == [] then [] else stack[..|stack| - 1]
  }

  lemma LinkedTop(c: int, stack: seq<IoBuf>)
    requires Linked(c, 0, stack) && stack != []
    ensures Top(stack) != null && Top(stack).next == Top(Rest(stack)) && Top(stack).Valid()
    ensures Top(stack).head == Top(stack).length == 0
    ensures Linked(c, 0, Rest(stack)) && Top(stack) !in Rest(stack) && Top(stack) in stack
    ensures forall b | b in stack :: b == Top(stack) || b in Rest(stack)
  {
  }

  /** Links an empty buffer in front of a list. */
  method LinkTo(buf: IoBuf, c: int, first: IoBuf?, ghost stack: seq<IoBuf>)
    requires Linked(c, 0, stack) && first == Top(stack) && buf !in stack
    requires buf.Valid() && buf.capacity == c && buf.head == buf.length == 0
    modifies buf`next, buf`rank
    ensures Linked(c, 0, stack + [buf]) && Top(stack + [buf]) == buf
  {
    buf.next := first;
    buf.rank := |stack|;
    assert Linked(c, 0, stack);
    assert forall k | 0 <= k <= |stack| :: Below(stack + [buf], k) == Below(stack, k);
  }

  lemma LinkedMember(c: int, low: nat, stack: seq<IoBuf>, b: IoBuf)
    requires Linked(c, low, stack) && b in stack
    ensures b.Valid() && b.capacity == c && b.head == b.length == 0
  {
  }

  /** Which buffers are where: each in the list of its class, or held. */
  ghost predicate Partition(all: set<IoBuf>, lent: set<IoBuf>, free: map<int, seq<IoBuf>>) {
    && lent <= all
    && (forall c | c in free :: IsClass(c))
    && (forall c, b | c in free && b in free[c] :: b in all && b !in lent && b.capacity == c)
    && (forall b | b in all :: b.capacity in free && (b !in lent ==> b in free[b.capacity]))
  }

  /** Every buffer has an array of its capacity to itself. */
  ghost predicate Unshared(bufs: set<IoBuf>) {
    && (forall b | b in bufs :: b.data.Length == b.capacity)
    && (forall b, b' | b in bufs && b' in bufs && b != b' :: b.data != b'.data)
  }

  lemma PartitionInstall(all: set<IoBuf>, free: map<int, seq<IoBuf>>, c: int, stack: seq<IoBuf>, added: set<IoBuf>)
    requires Partition(all, {}, free) && IsClass(c) && c !in free
    requires added == Members(stack) && forall b | b in stack :: b !in all && b.capacity == c
    ensures Partition(all + added, {}, free[c := stack])
  {
  }

  lemma PartitionClass(all: set<IoBuf>, lent: set<IoBuf>, free: map<int, seq<IoBuf>>, c: int)
    requires Partition(all, lent, free) && c in free
    ensures IsClass(c)
  {
  }

  lemma PartitionTake(all: set<IoBuf>, lent: set<IoBuf>, free: map<int, seq<IoBuf>>, c: int, b: IoBuf)
    requires Partition(all, lent, free) && c in free && b in free[c] && b !in Rest(free[c])
    requires forall x | x in free[c] :: x == b || x in Rest(free[c])
    ensures Partition(all, lent + {b}, free[c := Rest(free[c])])
    ensures b in all && b !in lent && b.capacity == c
    ensures forall d | d in free && d != c :: b !in free[d]
  {
  }

  lemma PartitionGrow(all: set<IoBuf>, lent: set<IoBuf>, free: map<int, seq<IoBuf>>, b: IoBuf)
    requires Partition(all, lent, free) && b !in all && b.capacity in free
    ensures Partition(all + {b}, lent + {b}, free)
    ensures forall d | d in free :: b !in free[d]
  {
  }

  lemma UnsharedGrow(all: set<IoBuf>, b: IoBuf)
    requires Unshared(all) && b.data.Length == b.capacity && forall x | x in all :: x.data != b.data
    ensures Unshared(all + {b})
  {
  }

  lemma PartitionPut(all: set<IoBuf>, lent: set<IoBuf>, free: map<int, seq<IoBuf>>, b: IoBuf)
    requires Partition(all, lent, free) && b in lent
    ensures b.capacity in free && b in all
    ensures Partition(all, lent - {b}, free[b.capacity := free[b.capacity] + [b]])
    ensures forall d | d in free :: b !in free[d]
  {
  }

  ghost function InClass(bufs: set<IoBuf>, c: int): set<IoBuf> {
    set b | b in bufs && b.capacity == c
  }

  /** The memory of all buffers, in KB. */
  ghost function Memory(bufs: set<IoBuf>): nat {
    4 * |InClass(bufs, M4K)| + 16 * |InClass(bufs, M16K)| + 64 * |InClass(bufs, M64K)| + 256 * |InClass(bufs, M256K)|
    + 1024 * |InClass(bufs, M1M)| + 4096 * |InClass(bufs, M4M)| + 8192 * |InClass(bufs, M8M)|
  }

  lemma MemoryAtStart(bufs: set<IoBuf>)
    requires forall k | 0 <= k < BLOCKS :: |InClass(bufs, BlockAt(k).size)| == BlockAt(k).extra + 1
    ensures Memory(bufs) == 334240 + UNCOUNTED
  {
    hide InClass;
    assert |InClass(bufs, BlockAt(0).size)| == 5001;
    assert |InClass(bufs, BlockAt(1).size)| == 1001;
    assert |InClass(bufs, BlockAt(2).size)| == 501;
    assert |InClass(bufs, BlockAt(3).size)| == 201;
    assert |InClass(bufs, BlockAt(4).size)| == 51;
    assert |InClass(bufs, BlockAt(5).size)| == 21;
    assert |InClass(bufs, BlockAt(6).size)| == 21;
  }

  lemma AccountGrowth(bufs: set<IoBuf>, b: IoBuf)
    requires b !in bufs && IsClass(b.capacity)
    ensures Memory(bufs + {b}) == Memory(bufs) + b.capacity / 1024
  {
    hide InClass;
    CountAdded(bufs, {b}, b.capacity);
  }

  lemma CountAdded(bufs: set<IoBuf>, added: set<IoBuf>, c: int)
    requires bufs !! added && forall b | b in added :: b.capacity == c
    ensures |InClass(bufs + added, c)| == |InClass(bufs, c)| + |added|
    ensures forall d | d != c :: |InClass(bufs + added, d)| == |InClass(bufs, d)|
  {
    assert InClass(bufs + added, c) == InClass(bufs, c) + added;
    forall d | d != c
      ensures |InClass(bufs + added, d)| == |InClass(bufs, d)|
    {
      assert InClass(bufs + added, d) == InClass(bufs, d);
    }
  }

  lemma {:induction false} DistinctCount<T>(s: seq<T>)
    requires forall i, j | 0 <= i < j < |s| :: s[i] != s[j]
    ensures |set x | x in s| == |s|
  {
    if s != [] {
      var n := |s| - 1;
      DistinctCount(s[..n]);
      assert (set x | x in s) == (set x | x in s[..n]) + {s[n]};
    }
  }

  ghost function Below(stack: seq<IoBuf>, k: nat): IoBuf?
    requires k <= |stack|
  {
    if k == 0 then null else stack[k - 1]
  }

  ghost function Top(stack: seq<IoBuf>): IoBuf? {
    Below(stack, |stack|)
  }

  /** A linked list of empty buffers, last buffer first; the ranks of its members start at `low`. */
  ghost predicate Linked(c: int, low: nat, stack: seq<IoBuf>)
    reads stack
  {
    forall k | 0 <= k < |stack| ::
      var b := stack[k];
      b.rank == low + k && b.Valid() && b.capacity == c && b.head == b.length == 0 && b.next == Below(stack, k)
  }

  /** Puts a new buffer behind the last one of a list. */
  method LinkBehind(prev: IoBuf, c: nat, ghost low: nat, ghost stack: seq<IoBuf>) returns (b: IoBuf)
    requires stack != [] && prev == stack[0] && Linked(c, low + 1, stack) && Unshared(Members(stack))
    modifies prev`next
    ensures fresh(b) && fresh(b.data) && Linked(c, low, [b] + stack) && Unshared(Members([b] + stack))
  {
    hide Unshared, Members;
    b := new IoBuf(c);
    b.rank := low;
    UnsharedLonger(stack, b);
    prev.next := b;
    assert stack[0].next == b && forall k | 1 <= k < |stack| :: stack[k].next == stack[k - 1];
    LinkedLonger(c, low, b, stack);
  }

  lemma LinkedLonger(c: int, low: nat, b: IoBuf, stack: seq<IoBuf>)
    requires b.rank == low && b.Valid() && b.capacity == c && b.head == b.length == 0 && b.next == null
    requires stack != [] && stack[0].next == b && forall k | 1 <= k < |stack| :: stack[k].next == stack[k - 1]
    requires forall k | 0 <= k < |stack| ::
      var x := stack[k]; x.rank == low + 1 + k && x.Valid() && x.capacity == c && x.head == x.length == 0
    ensures Linked(c, low, [b] + stack)
  {
  }

  lemma UnsharedLonger(stack: seq<IoBuf>, b: IoBuf)
    requires Unshared(Members(stack)) && b.data.Length == b.capacity && forall x | x in stack :: x.data != b.data
    ensures Unshared(Members([b] + stack))
  {
    hide Unshared;
    UnsharedGrow(Members(stack), b);
    assert Members([b] + stack) == Members(stack) + {b};
  }

  ghost function Members(stack: seq<IoBuf>): set<IoBuf> {
    set b | b in stack
  }

  method BuildList(c: nat, extra: nat) returns (first: IoBuf, ghost stack: seq<IoBuf>)
    ensures Linked(c, 0, stack)
    ensures |stack| == extra + 1 && first == Top(stack)
    ensures forall b | b in stack :: fresh(b) && fresh(b.data)
    ensures Unshared(Members(stack))
  {
    first := new IoBuf(c);
    first.rank := extra;
    stack := [first];
    var prev := first;
    StackOfOne(c, extra, first);
    hide Linked, Unshared, Members, Below;
    for i := 0 to extra
      invariant |stack| == i + 1 && first == stack[i] && prev == stack[0]
      invariant Linked(c, extra - i, stack) && Unshared(Members(stack))
      invariant forall b | b in stack :: fresh(b) && fresh(b.data)
    {
      prev := LinkBehind(prev, c, extra - i - 1, stack);
      stack := [prev] + stack;
    }
    LastIsTop(stack);
  }

  lemma StackOfOne(c: int, low: nat, b: IoBuf)
    requires b.rank == low && b.Valid() && b.capacity == c && b.head == b.length == 0 && b.next == null
    ensures Linked(c, low, [b]) && Unshared(Members([b]))
  {
    assert Members([b]) == {b};
  }

  lemma LastIsTop(stack: seq<IoBuf>)
    requires stack != []
    ensures Top(stack) == stack[|stack| - 1]
  {
  }
}
