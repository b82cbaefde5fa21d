/**
 The pool that order nodes come from, and the memory they live in. A node pointer is an address: an index
 into the pool's memory, which is its chunks laid end to end. Chunks never move, so an address stays good
 for the life of the pool, and growing the pool only adds addresses.
 */
module OrderPools {
  import opened Arith
  import opened BookSpec
  import opened MarketEvents

  const NULL: int := -1

  // An intrusive FIFO node. While the node is free, next is the free-list link and the rest is stale.
  datatype Order = Order(orderRef: nat, priceTicks: int, size: nat, levelIdx: nat, side: Side, prev: int, next: int)

  const BLANK := Order(0, 0, 0, 0, NoSide, NULL, NULL)

  // The free list bottom first: head is the last element, and every next is the element before.
  ghost predicate Chain(mem: seq<Order>, free: seq<int>, head: int) {
    && NoDup(free)
    && head == (if |free| == 0 then NULL else free[|free| - 1])
    && (forall k :: 0 <= k < |free| ==> 0 <= free[k] < |mem|)
    && (forall k {:trigger mem[free[k]]} :: 0 <= k < |free| ==> mem[free[k]].next == if k == 0 then NULL else free[k - 1])
  }

  function Addresses(base: int, n: nat): (s: seq<int>)
    ensures |s| == n && forall k :: 0 <= k < n ==> s[k] == base + k
  {
    seq(n, k => base + k)
  }

  // Putting one more node on the free list.
  lemma Pushed(mem: seq<Order>, free: seq<int>, head: int, p: int)
    requires Chain(mem, free, head) && 0 <= p < |mem| && p !in free
    ensures Chain(mem[p := mem[p].(next := head)], free + [p], p)
  {
  }

  lemma ChainRange(mem: seq<Order>, free: seq<int>, head: int)
    requires Chain(mem, free, head)
    ensures forall p :: p in free ==> 0 <= p < |mem|
  {
  }

  lemma ChainKept(mem: seq<Order>, m: seq<Order>, free: seq<int>, head: int)
    requires Chain(mem, free, head) && |mem| <= |m| && forall p :: p in free ==> m[p].next == mem[p].next
    ensures Chain(m, free, head)
  {
    assert forall k :: 0 <= k < |free| ==> free[k] in free;
  }

  class OrderPool {
    const chunk: nat
    var chunks: nat            // how many chunks the memory holds
    var mem: seq<Order>
    var freeHead: int
    ghost var free: seq<int>

    ghost predicate Valid()
      reads this
    {
      chunk >= 1 && |mem| == chunks * chunk && Chain(mem, free, freeHead)
    }

    constructor (chunk: nat)
      ensures Valid() && mem == [] && free == [] && chunks == 0
      ensures this.chunk == if chunk != 0 then chunk else 1
    {
      this.chunk := if chunk != 0 then chunk else 1;
      chunks, mem, freeHead, free := 0, [], NULL, [];
    }

    // The loop of grow and reset_all: thread the nodes of the chunk at base onto the front of the free list.
    method Thread(base: nat)
      requires Chain(mem, free, freeHead) && base + chunk <= |mem|
      requires forall k :: 0 <= k < |free| ==> free[k] < base
      modifies this
      ensures Chain(mem, free, freeHead) && free == old(free) + Addresses(base, chunk)
      ensures chunks == old(chunks) && |mem| == |old(mem)| && mem[..base] == old(mem)[..base]
    {
      for i := 0 to chunk
        invariant chunks == old(chunks) && |mem| == |old(mem)| && mem[..base] == old(mem)[..base]
        invariant Chain(mem, free, freeHead) && free == old(free) + Addresses(base, i)
      {
        Pushed(mem, free, freeHead, base + i);
        assert free + [base + i] == old(free) + Addresses(base, i + 1);
        mem := mem[base + i := mem[base + i].(next := freeHead)];
        freeHead := base + i;
        free := free + [base + i];
      }
    }

    method Grow()
      requires Valid()
      modifies this
      ensures Valid() && chunks == old(chunks) + 1
      ensures |mem| == |old(mem)| + chunk && mem[..|old(mem)|] == old(mem)
      ensures free == old(free) + Addresses(|old(mem)|, chunk)
    {
      var base := |mem|;
      mem := mem + seq(chunk, _ => BLANK);
      Thread(base);
      chunks := chunks + 1;
    }

    method Alloc() returns (o: int)
      requires Valid()
      modifies this
      ensures Valid() && |old(mem)| <= |mem| && mem[..|old(mem)|] == old(mem)
      ensures 0 <= o < |mem| && o !in free
      ensures free + [o] == old(free) + Addresses(|old(mem)|, |mem| - |old(mem)|)
      ensures old(free) != [] ==> mem == old(mem)
    {
      if freeHead == NULL {
        Grow();
      }
      o := freeHead;
      freeHead := mem[o].next;
      free := free[..|free| - 1];
    }

    method Release(o: int)
      requires Valid() && 0 <= o < |mem| && o !in free
      modifies this
      ensures Valid() && chunks == old(chunks) && free == old(free) + [o]
      ensures mem == old(mem)[o := old(mem[o]).(next := old(freeHead))]
    {
      Pushed(mem, free, freeHead, o);
      mem := mem[o := mem[o].(next := freeHead)];
      freeHead := o;
      free := free + [o];
    }

    // Every node of every chunk goes back to the free list, whatever list it was on.
    method ResetAll()
      requires Valid()
      modifies this
      ensures Valid() && chunks == old(chunks) && |mem| == |old(mem)|
      ensures free == Addresses(0, |mem|)
    {
      freeHead, free := NULL, [];
      for c := 0 to chunks
        invariant chunks == old(chunks) && |mem| == |old(mem)| && c * chunk <= |mem|
        invariant Chain(mem, free, freeHead) && free == Addresses(0, c * chunk)
      {
        MulLe(c + 1, chunks, chunk);
        assert (c + 1) * chunk == c * chunk + chunk;
        Thread(c * chunk);
        assert free == Addresses(0, (c + 1) * chunk);
      }
    }
  }
}
