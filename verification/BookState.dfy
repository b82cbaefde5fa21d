/**
 What the book's memory looks like when it represents an abstract book, and the lemmas by which one list
 splice keeps it so.
 */
module BookState {
  import opened Arith
  import opened BookSpec
  import opened MarketEvents
  import opened OrderPools

  datatype PriceLevel = PriceLevel(aggregateSize: nat, orderCount: nat, side: Side, head: int, tail: int)

  const EMPTY_LEVEL := PriceLevel(0, 0, NoSide, NULL, NULL)

  // The mutable state of an order book: node memory, free list, index and levels.
  datatype State = State(mem: seq<Order>, free: seq<int>, index: map<nat, int>, levels: seq<PriceLevel>)

  // ----- intrusive lists

  function At(ps: seq<int>, k: int): int {
    if 0 <= k < |ps| then ps[k] else NULL
  }

  // ps is a doubly linked list from head to tail: prev and next are mutually inverse along it.
  ghost predicate Dll(mem: seq<Order>, ps: seq<int>, head: int, tail: int) {
    && NoDup(ps)
    && head == At(ps, 0) && tail == At(ps, |ps| - 1)
    && (forall k :: 0 <= k < |ps| ==> 0 <= ps[k] < |mem|)
    && (forall k {:trigger mem[ps[k]]} :: 0 <= k < |ps| ==>
          mem[ps[k]].prev == At(ps, k - 1) && mem[ps[k]].next == At(ps, k + 1))
  }

  // m is mem but for the links of the nodes in ps.
  ghost predicate Relinked(mem: seq<Order>, m: seq<Order>, ps: seq<int>) {
    && |m| == |mem|
    && (forall p :: 0 <= p < |mem| ==> m[p] == mem[p].(prev := m[p].prev, next := m[p].next))
    && (forall p :: 0 <= p < |mem| && p !in ps ==> m[p] == mem[p])
  }

  function LinkedBack(mem: seq<Order>, tail: int, o: int): (m: seq<Order>)
    requires 0 <= o < |mem| && (tail == NULL || 0 <= tail < |mem|)
    ensures |m| == |mem|
  {
    var m := mem[o := mem[o].(prev := tail, next := NULL)];
    if tail != NULL then m[tail := m[tail].(next := o)] else m
  }

  lemma LinkedBackOk(mem: seq<Order>, ps: seq<int>, head: int, tail: int, o: int)
    requires Dll(mem, ps, head, tail) && 0 <= o < |mem| && o !in ps
    ensures Dll(LinkedBack(mem, tail, o), ps + [o], if tail == NULL then o else head, o)
    ensures Relinked(mem, LinkedBack(mem, tail, o), ps + [o])
  {
  }

  // The neighbours of o, where it has any, are addresses.
  predicate LinksIn(mem: seq<Order>, o: int) {
    && 0 <= o < |mem|
    && (mem[o].prev == NULL || 0 <= mem[o].prev < |mem|)
    && (mem[o].next == NULL || 0 <= mem[o].next < |mem|)
  }

  function Unlinked(mem: seq<Order>, o: int): (m: seq<Order>)
    requires LinksIn(mem, o)
    ensures |m| == |mem|
  {
    var m := if mem[o].prev == NULL then mem else mem[mem[o].prev := mem[mem[o].prev].(next := mem[o].next)];
    if m[o].next == NULL then m else m[m[o].next := m[m[o].next].(prev := m[o].prev)]
  }

  lemma UnlinkedOk(mem: seq<Order>, ps: seq<int>, head: int, tail: int, k: nat)
    requires Dll(mem, ps, head, tail) && k < |ps|
    ensures Dll(Unlinked(mem, ps[k]), ps[..k] + ps[k + 1..],
                if mem[ps[k]].prev == NULL then mem[ps[k]].next else head,
                if mem[ps[k]].next == NULL then mem[ps[k]].prev else tail)
    ensures Relinked(mem, Unlinked(mem, ps[k]), ps)
  {
    hide Unlinked, NoDup, At;
    Skip(ps, k);
    UnlinkedLinks(mem, ps, head, tail, k);
    var m, rest := Unlinked(mem, ps[k]), ps[..k] + ps[k + 1..];
    forall j | 0 <= j < |rest|
      ensures m[rest[j]].prev == At(rest, j - 1) && m[rest[j]].next == At(rest, j + 1)
    {
      assert rest[j] == ps[if j < k then j else j + 1];
    }
  }

  // The sequence without the place k.
  lemma Skip(ps: seq<int>, k: nat)
    requires NoDup(ps) && k < |ps|
    ensures NoDup(ps[..k] + ps[k + 1..]) && ps[k] !in ps[..k] + ps[k + 1..]
    ensures forall j {:trigger At(ps[..k] + ps[k + 1..], j)} ::
              At(ps[..k] + ps[k + 1..], j) == At(ps, if j < k then j else j + 1)
  {
  }

  // The neighbours of place k on the list.
  lemma Neighbours(mem: seq<Order>, ps: seq<int>, head: int, tail: int, k: nat)
    requires Dll(mem, ps, head, tail) && k < |ps|
    ensures LinksIn(mem, ps[k]) && (forall j :: 0 <= j < |ps| ==> 0 <= ps[j] < |mem|)
    ensures (mem[ps[k]].prev == NULL <==> k == 0) && (mem[ps[k]].next == NULL <==> k == |ps| - 1)
    ensures mem[ps[k]].prev == At(ps, k - 1) && mem[ps[k]].next == At(ps, k + 1)
  {
    hide NoDup;
  }

  lemma Apart(ps: seq<int>, i: nat, j: nat)
    requires NoDup(ps) && i < |ps| && j < |ps| && i != j
    ensures ps[i] != ps[j]
  {
  }

  // Only the two neighbours of the node change, and each by one link.
  lemma UnlinkedLinks(mem: seq<Order>, ps: seq<int>, head: int, tail: int, k: nat)
    requires Dll(mem, ps, head, tail) && k < |ps|
    ensures LinksIn(mem, ps[k]) && (forall j :: 0 <= j < |ps| ==> 0 <= ps[j] < |mem|)
    ensures (mem[ps[k]].prev == NULL <==> k == 0) && (mem[ps[k]].next == NULL <==> k == |ps| - 1)
    ensures mem[ps[k]].prev == At(ps, k - 1) && mem[ps[k]].next == At(ps, k + 1)
    ensures var m := Unlinked(mem, ps[k]);
      && Relinked(mem, m, ps)
      && (forall j {:trigger m[ps[j]]} :: 0 <= j < |ps| && j != k ==>
            && m[ps[j]].prev == At(ps, if j == k + 1 then k - 1 else j - 1)
            && m[ps[j]].next == At(ps, if j == k - 1 then k + 1 else j + 1))
  {
    hide NoDup;
    Neighbours(mem, ps, head, tail, k);
    var m := Unlinked(mem, ps[k]);
    forall j {:trigger m[ps[j]]} | 0 <= j < |ps| && j != k
      ensures m[ps[j]].prev == At(ps, if j == k + 1 then k - 1 else j - 1)
      ensures m[ps[j]].next == At(ps, if j == k - 1 then k + 1 else j + 1)
    {
      if k > 0 && j != k - 1 { Apart(ps, j, k - 1); }
      if k + 1 < |ps| && j != k + 1 { Apart(ps, j, k + 1); }
      if 0 < k && k + 1 < |ps| { Apart(ps, k - 1, k + 1); }
    }
  }

  lemma DllFrame(mem: seq<Order>, m: seq<Order>, ps: seq<int>, head: int, tail: int)
    requires Dll(mem, ps, head, tail) && |mem| <= |m| && forall p :: p in ps ==> m[p] == mem[p]
    ensures Dll(m, ps, head, tail)
  {
    assert forall k :: 0 <= k < |ps| ==> ps[k] in ps;
  }

  // Unlinking a node and threading it onto the free list.
  lemma FreedOk(mem: seq<Order>, ps: seq<int>, head: int, tail: int, k: nat, freeHead: int)
    requires Dll(mem, ps, head, tail) && k < |ps|
    ensures LinksIn(mem, ps[k])
    ensures var m := Unlinked(mem, ps[k]);
      && Dll(m[ps[k] := m[ps[k]].(next := freeHead)], ps[..k] + ps[k + 1..],
             if mem[ps[k]].prev == NULL then mem[ps[k]].next else head,
             if mem[ps[k]].next == NULL then mem[ps[k]].prev else tail)
      && Relinked(mem, m[ps[k] := m[ps[k]].(next := freeHead)], ps)
  {
    hide Unlinked, NoDup, At;
    UnlinkedLinks(mem, ps, head, tail, k);
    UnlinkedOk(mem, ps, head, tail, k);
    var m, rest := Unlinked(mem, ps[k]), ps[..k] + ps[k + 1..];
    Skip(ps, k);
    DllFrame(m, m[ps[k] := m[ps[k]].(next := freeHead)], rest,
             if mem[ps[k]].prev == NULL then mem[ps[k]].next else head,
             if mem[ps[k]].next == NULL then mem[ps[k]].prev else tail);
  }

  // ----- the whole state

  function PtrsOf(index: map<nat, int>, q: seq<nat>): (ps: seq<int>)
    requires forall r :: r in q ==> r in index
    ensures |ps| == |q| && forall j :: 0 <= j < |q| ==> ps[j] == index[q[j]]
  {
    seq(|q|, j requires 0 <= j < |q| => index[q[j]])
  }

  function RestingOf(o: Order): Resting {
    Resting(o.priceTicks, o.size, o.side, o.levelIdx)
  }

  // The index maps exactly the live refs to their nodes, and every other node is free.
  ghost predicate NodesOk(s: State, orders: map<nat, Resting>) {
    && s.index.Keys == orders.Keys
    && (forall r {:trigger s.index[r]} :: r in s.index ==>
          && 0 <= s.index[r] < |s.mem| && s.index[r] !in s.free
          && s.mem[s.index[r]].orderRef == r && orders[r] == RestingOf(s.mem[s.index[r]]))
    && (forall p :: 0 <= p < |s.mem| && p !in s.free ==> s.mem[p].orderRef in s.index && s.index[s.mem[p].orderRef] == p)
    && |s.free| + |s.index| == |s.mem|
  }

  ghost predicate LevelOk(s: State, b: Book, i: nat)
    requires i < |s.levels| && i < |b.queues| && i < |b.sides|
  {
    var q, lvl := b.queues[i], s.levels[i];
    && (forall r :: r in q ==> r in b.orders && r in s.index)
    && lvl.aggregateSize == SumSizes(b.orders, q)
    && lvl.orderCount == |q|
    && lvl.side == b.sides[i]
    && Dll(s.mem, PtrsOf(s.index, q), lvl.head, lvl.tail)
  }

  // s represents the abstract book b.
  ghost predicate Refines(s: State, b: Book) {
    && WellFormed(b)
    && |s.levels| == |b.queues|
    && NodesOk(s, b.orders)
    && forall i :: 0 <= i < |s.levels| ==> LevelOk(s, b, i)
  }

  lemma ShapeOf(s: State, b: Book)
    requires Refines(s, b)
    ensures WellFormed(b) && |b.sides| == |b.queues| == |s.levels| && NodesOk(s, b.orders)
  {
    hide LevelOk, NodesOk;
  }

  lemma SameShape(b: Book)
    requires WellFormed(b)
    ensures |b.sides| == |b.queues| == NumLevels(b.cfg)
  {
  }

  lemma LevelReady(s: State, b: Book, i: nat)
    requires Refines(s, b) && i < |s.levels|
    ensures WellFormed(b) && |b.sides| == |b.queues| == |s.levels| && LevelOk(s, b, i) && s.index.Keys == b.orders.Keys
    ensures s.levels[i].orderCount == |b.queues[i]|
  {
  }

  // The refs queued at a level are live and of that level.
  lemma LevelRefs(s: State, b: Book, i: nat)
    requires Refines(s, b) && i < |s.levels|
    ensures NodesOk(s, b.orders) && LevelOk(s, b, i)
    ensures forall r :: r in b.queues[i] ==> r in s.index && r in b.orders && b.orders[r].level == i
  {
    hide Dll, NodesOk;
  }

  lemma SameKeys(s: State, orders: map<nat, Resting>)
    requires NodesOk(s, orders)
    ensures s.index.Keys == orders.Keys
  {
  }

  // An order of one level is on no other level's list.
  lemma Separate(s: State, b: Book, i: nat, r: nat)
    requires Refines(s, b) && i < |s.levels| && r in s.index && r in b.orders && b.orders[r].level != i
    ensures LevelOk(s, b, i) && s.index[r] !in PtrsOf(s.index, b.queues[i])
  {
    hide WellFormed, Dll, LevelOk;
    LevelRefs(s, b, i);
    OwnAddress(s, b.orders, b.queues[i], r);
  }

  lemma OwnAddress(s: State, orders: map<nat, Resting>, q: seq<nat>, r: nat)
    requires NodesOk(s, orders) && r in s.index && r !in q && forall x :: x in q ==> x in s.index
    ensures s.index[r] !in PtrsOf(s.index, q)
  {
    forall j | 0 <= j < |q|
      ensures s.index[q[j]] != s.index[r]
    {
      assert q[j] in q;
    }
  }

  // A level whose queue, record, nodes and sizes nothing has touched is still in order.
  lemma LevelKept(s: State, b: Book, s': State, b': Book, j: nat)
    requires j < |s.levels| == |b.queues| == |b.sides| && LevelOk(s, b, j)
    requires j < |s'.levels| == |b'.queues| == |b'.sides|
    requires b'.queues[j] == b.queues[j] && b'.sides[j] == b.sides[j] && s'.levels[j] == s.levels[j]
    requires forall r :: r in b.queues[j] ==> r in s'.index && r in b'.orders
    requires forall r :: r in b.queues[j] ==> s'.index[r] == s.index[r] && b'.orders[r].size == b.orders[r].size
    requires |s.mem| <= |s'.mem| && forall p :: p in PtrsOf(s.index, b.queues[j]) ==> s'.mem[p] == s.mem[p]
    ensures LevelOk(s', b', j)
  {
    var q := b.queues[j];
    SumFrame(b.orders, b'.orders, q);
    assert PtrsOf(s'.index, q) == PtrsOf(s.index, q);
    DllFrame(s.mem, s'.mem, PtrsOf(s.index, q), s.levels[j].head, s.levels[j].tail);
  }

  // When only level i and its nodes have changed, and they are in order, so is everything.
  lemma OthersKept(s: State, b: Book, s': State, b': Book, i: nat)
    requires Refines(s, b) && WellFormed(b') && |s'.levels| == |b'.queues| == |s.levels| && i < |s.levels|
    requires NodesOk(s', b'.orders) && LevelOk(s', b', i)
    requires forall j :: 0 <= j < |s.levels| && j != i ==>
               s'.levels[j] == s.levels[j] && b'.queues[j] == b.queues[j] && b'.sides[j] == b.sides[j]
    requires |s.mem| <= |s'.mem|
    requires forall r {:trigger s.index[r]} :: r in s.index && b.orders[r].level != i ==>
               r in s'.index && s'.index[r] == s.index[r] && s'.mem[s.index[r]] == s.mem[s.index[r]] && b'.orders[r] == b.orders[r]
    ensures Refines(s', b')
  {
    hide Dll, WellFormed, NodesOk;
    SameShape(b);
    SameShape(b');
    forall j | 0 <= j < |s.levels| && j != i
      ensures LevelOk(s', b', j)
    {
      var q := b.queues[j];
      LevelRefs(s, b, j);
      LevelList(s, b, j);
      SameKeys(s', b'.orders);
      forall p | p in PtrsOf(s.index, q)
        ensures s'.mem[p] == s.mem[p]
      {
        var k :| 0 <= k < |q| && s.index[q[k]] == p;
        assert q[k] in q;
      }
      LevelKept(s, b, s', b', j);
    }
  }

  lemma EmptyRefines(s: State, c: Config)
    requires ConfigOk(c) && s.index == map[] && |s.levels| == NumLevels(c)
    requires forall i :: 0 <= i < |s.levels| ==> s.levels[i] == EMPTY_LEVEL
    requires s.free == Addresses(0, |s.mem|)
    ensures Refines(s, EmptyBook(c))
  {
    forall p | 0 <= p < |s.mem|
      ensures p in s.free
    {
      assert s.free[p] == p;
    }
  }

  // ----- one order more

  // s' is s with the node at o taken from the free list, filled in and put at the back of its level.
  ghost predicate InsertedNode(s: State, b: Book, s': State, o: int, i: nat)
    requires i < |s.levels| == |s'.levels| && i < |b.queues| && forall r :: r in b.queues[i] ==> r in s.index
  {
    var ps, lvl, lvl' := PtrsOf(s.index, b.queues[i]), s.levels[i], s'.levels[i];
    && |s.mem| <= |s'.mem| && 0 <= o < |s'.mem|
    && o !in s'.free && |s'.free| + 1 == |s.free| + |s'.mem| - |s.mem|
    && (forall p :: 0 <= p < |s'.mem| ==> (p in s'.free || p == o <==> p in s.free || p >= |s.mem|))
    && s'.mem[o].levelIdx == i && s'.mem[o].orderRef !in s.index
    && s'.index == s.index[s'.mem[o].orderRef := o]
    && (forall p :: 0 <= p < |s.mem| && p != o ==> s'.mem[p] == s.mem[p].(prev := s'.mem[p].prev, next := s'.mem[p].next))
    && (forall p :: 0 <= p < |s.mem| && p != o && p !in ps ==> s'.mem[p] == s.mem[p])
    && Dll(s'.mem, ps + [o], lvl'.head, lvl'.tail)
    && lvl'.aggregateSize == lvl.aggregateSize + s'.mem[o].size
    && lvl'.orderCount == lvl.orderCount + 1
    && lvl'.side == (if lvl.orderCount == 0 then s'.mem[o].side else lvl.side)
    && forall j :: 0 <= j < |s.levels| && j != i ==> s'.levels[j] == s.levels[j]
  }

  lemma InsertedNodes(s: State, b: Book, s': State, o: int, i: nat)
    requires Refines(s, b) && i < |s.levels| == |s'.levels| && LevelOk(s, b, i) && InsertedNode(s, b, s', o, i)
    ensures NodesOk(s', b.orders[s'.mem[o].orderRef := RestingOf(s'.mem[o])])
  {
    hide WellFormed, Dll, LevelOk;
  }

  lemma InsertedLevel(s: State, b: Book, s': State, b': Book, o: int, i: nat)
    requires i < |s.levels| == |s'.levels| && i < |b.queues| == |b.sides| && LevelOk(s, b, i) && InsertedNode(s, b, s', o, i)
    requires |b'.queues| == |b'.sides| == |b.queues| && s'.mem[o].orderRef !in b.orders
    requires b'.orders == b.orders[s'.mem[o].orderRef := RestingOf(s'.mem[o])]
    requires b'.queues[i] == b.queues[i] + [s'.mem[o].orderRef]
    requires b'.sides[i] == if b.queues[i] == [] then s'.mem[o].side else b.sides[i]
    ensures LevelOk(s', b', i)
  {
    var q, ref := b.queues[i], s'.mem[o].orderRef;
    SumFrame(b.orders, b'.orders, q);
    assert (q + [ref])[..|q|] == q;
    assert PtrsOf(s'.index, q + [ref]) == PtrsOf(s.index, q) + [o];
  }

  lemma InsertedOthers(s: State, b: Book, s': State, o: int, i: nat)
    requires Refines(s, b) && i < |s.levels| == |s'.levels| && LevelOk(s, b, i) && InsertedNode(s, b, s', o, i)
    ensures s'.mem[o].orderRef !in b.orders
    ensures forall r {:trigger s.index[r]} :: r in s.index && b.orders[r].level != i ==>
              r in s'.index && s'.index[r] == s.index[r] && s'.mem[s.index[r]] == s.mem[s.index[r]]
  {
    hide WellFormed, Dll, LevelOk;
    forall r {:trigger s.index[r]} | r in s.index && b.orders[r].level != i
      ensures s'.mem[s.index[r]] == s.mem[s.index[r]]
    {
      Separate(s, b, i, r);
    }
  }

  lemma Inserted(s: State, b: Book, s': State, o: int, i: nat)
    requires Refines(s, b) && i < |s.levels| == |s'.levels| && LevelOk(s, b, i) && InsertedNode(s, b, s', o, i)
    requires ToIndex(b.cfg, s'.mem[o].priceTicks) == i
    ensures Refines(s', OnAdd(b, s'.mem[o].orderRef, s'.mem[o].side, s'.mem[o].priceTicks, s'.mem[o].size))
  {
    hide WellFormed, Dll, LevelOk, NodesOk;
    SameShape(b);
    var ref, rest := s'.mem[o].orderRef, RestingOf(s'.mem[o]);
    var b' := OnAdd(b, ref, rest.side, rest.price, rest.size);
    AddWellFormed(b, ref, rest.side, rest.price, rest.size);
    InsertedNodes(s, b, s', o, i);
    InsertedOthers(s, b, s', o, i);
    InsertedLevel(s, b, s', b', o, i);
    OthersKept(s, b, s', b', i);
  }

  // The steps of on_add, one after the other: mem and free are what the pool has after handing out o.
  function Appended(s: State, mem: seq<Order>, free: seq<int>, o: int, node: Order, i: nat): State
    requires 0 <= o < |mem| && i < |s.levels| && (s.levels[i].tail == NULL || 0 <= s.levels[i].tail < |mem|)
  {
    var lvl := s.levels[i];
    State(LinkedBack(mem[o := node], lvl.tail, o), free, s.index[node.orderRef := o],
          s.levels[i := PriceLevel(lvl.aggregateSize + node.size, lvl.orderCount + 1,
                                   if lvl.orderCount == 0 then node.side else lvl.side,
                                   if lvl.tail == NULL then o else lvl.head, o)])
  }

  lemma AppendedNode(s: State, b: Book, mem: seq<Order>, free: seq<int>, head0: int, head: int, o: int, node: Order, i: nat)
    requires Refines(s, b) && i < |s.levels| && LevelOk(s, b, i) && node.levelIdx == i && node.orderRef !in s.index
    requires |s.mem| <= |mem| && mem[..|s.mem|] == s.mem && 0 <= o < |mem| && o !in free
    requires free + [o] == s.free + Addresses(|s.mem|, |mem| - |s.mem|)
    requires Chain(s.mem, s.free, head0) && Chain(mem, free, head)
    ensures s.levels[i].tail == NULL || 0 <= s.levels[i].tail < |mem|
    ensures InsertedNode(s, b, Appended(s, mem, free, o, node, i), o, i)
    ensures Chain(Appended(s, mem, free, o, node, i).mem, free, head)
  {
    hide WellFormed, Dll, LevelOk, Chain;
    LevelList(s, b, i);
    var ps, lvl, m := PtrsOf(s.index, b.queues[i]), s.levels[i], mem[o := node];
    ChainRange(s.mem, s.free, head0);
    ChainRange(mem, free, head);
    GrownFree(s.free, |s.mem|, |mem|, free, o);
    NewAddress(s, b, i, |mem|, free, o);
    assert forall p :: 0 <= p < |s.mem| ==> mem[p] == mem[..|s.mem|][p];
    DllFrame(s.mem, m, ps, lvl.head, lvl.tail);
    LinkedBackOk(m, ps, lvl.head, lvl.tail, o);
    LiveNotFree(s, b, i, free, o);
    ChainKept(mem, LinkedBack(m, lvl.tail, o), free, head);
  }

  // No node of a level list is free once o has been taken.
  lemma LiveNotFree(s: State, b: Book, i: nat, free: seq<int>, o: int)
    requires Refines(s, b) && i < |s.levels| && LevelOk(s, b, i) && o !in free
    requires forall p :: p in free ==> p in s.free || p >= |s.mem|
    ensures forall p :: p in free ==> p !in PtrsOf(s.index, b.queues[i]) + [o]
  {
  }

  lemma LevelList(s: State, b: Book, i: nat)
    requires Refines(s, b) && i < |s.levels| && LevelOk(s, b, i)
    ensures forall r :: r in b.queues[i] ==> r in s.index
    ensures var ps, lvl := PtrsOf(s.index, b.queues[i]), s.levels[i];
      && Dll(s.mem, ps, lvl.head, lvl.tail) && (forall p :: p in ps ==> 0 <= p < |s.mem|)
      && (lvl.tail == NULL || 0 <= lvl.tail < |s.mem|)
  {
  }

  lemma GrownFree(free0: seq<int>, n: nat, m: nat, free: seq<int>, o: int)
    requires n <= m && free + [o] == free0 + Addresses(n, m - n) && 0 <= o < m
    requires forall p :: p in free0 ==> 0 <= p < n
    ensures |free| + 1 == |free0| + m - n
    ensures forall p :: 0 <= p < m ==> (p in free || p == o <==> p in free0 || p >= n)
  {
    var more := Addresses(n, m - n);
    forall p | n <= p < m
      ensures p in free + [o]
    {
      assert (free0 + more)[|free0| + (p - n)] == p;
    }
    assert forall p {:trigger p in free} :: p in free || p == o <==> p in free0 + more;
    assert forall p :: p in more ==> n <= p < m;
  }

  // The address just taken from the free list is on no level list.
  lemma NewAddress(s: State, b: Book, i: nat, m: nat, free: seq<int>, o: int)
    requires Refines(s, b) && i < |s.levels| && LevelOk(s, b, i)
    requires 0 <= o < m && (o in s.free || o >= |s.mem|)
    ensures o !in PtrsOf(s.index, b.queues[i])
  {
  }

  // ----- one order less

  // s' is s with the live node at o spliced out of its level and put on the free list.
  ghost predicate RemovedNode(s: State, b: Book, s': State, o: int, i: nat)
    requires i < |s.levels| == |s'.levels| && i < |b.queues| && forall r :: r in b.queues[i] ==> r in s.index
    requires 0 <= o < |s.mem| && s.mem[o].orderRef in s.index && s.index[s.mem[o].orderRef] == o
  {
    var q, lvl, lvl', ref := b.queues[i], s.levels[i], s'.levels[i], s.mem[o].orderRef;
    && |s'.mem| == |s.mem| && s'.free == s.free + [o] && s'.index == s.index - {ref}
    && (forall p :: 0 <= p < |s.mem| && p != o ==> s'.mem[p] == s.mem[p].(prev := s'.mem[p].prev, next := s'.mem[p].next))
    && (forall p :: 0 <= p < |s.mem| && p !in PtrsOf(s.index, q) ==> s'.mem[p] == s.mem[p])
    && Dll(s'.mem, PtrsOf(s.index, Without(q, ref)), lvl'.head, lvl'.tail)
    && lvl'.aggregateSize == lvl.aggregateSize - s.mem[o].size
    && lvl'.orderCount == lvl.orderCount - 1
    && lvl'.side == (if lvl'.orderCount == 0 then NoSide else lvl.side)
    && forall j :: 0 <= j < |s.levels| && j != i ==> s'.levels[j] == s.levels[j]
  }

  lemma NodeFacts(s: State, b: Book, ref: nat)
    requires Refines(s, b) && ref in s.index
    ensures s.index.Keys == b.orders.Keys && b.orders[ref].level < |s.levels| && 0 <= s.index[ref] < |s.mem|
    ensures s.mem[s.index[ref]].orderRef == ref && RestingOf(s.mem[s.index[ref]]) == b.orders[ref]
  {
  }

  // A live order is on its level's list.
  lemma Located(s: State, b: Book, ref: nat) returns (k: nat)
    requires Refines(s, b) && ref in s.index
    ensures ref in b.orders && b.orders[ref].level < |s.levels| && LevelOk(s, b, b.orders[ref].level)
    ensures var q, o := b.queues[b.orders[ref].level], s.index[ref];
      && 0 <= o < |s.mem| && s.mem[o].orderRef == ref && RestingOf(s.mem[o]) == b.orders[ref] && o !in s.free
      && NoDup(q) && k < |q| && q[k] == ref && PtrsOf(s.index, q)[k] == o
      && Without(q, ref) == q[..k] + q[k + 1..]
      && PtrsOf(s.index, Without(q, ref)) == PtrsOf(s.index, q)[..k] + PtrsOf(s.index, q)[k + 1..]
  {
    var q := b.queues[b.orders[ref].level];
    hide Dll;
    k := QueuePlace(b, ref);
    PtrsSplit(s.index, q, k);
  }

  lemma QueuePlace(b: Book, ref: nat) returns (k: nat)
    requires WellFormed(b) && ref in b.orders
    ensures b.orders[ref].level < |b.queues|
    ensures var q := b.queues[b.orders[ref].level];
      NoDup(q) && k < |q| && q[k] == ref && Without(q, ref) == q[..k] + q[k + 1..]
  {
    var q := b.queues[b.orders[ref].level];
    assert ref in q;
    k :| 0 <= k < |q| && q[k] == ref;
    WithoutSplit(q, k);
  }

  lemma PtrsSplit(index: map<nat, int>, q: seq<nat>, k: nat)
    requires k < |q| && forall r :: r in q ==> r in index
    ensures (forall r :: r in q[..k] + q[k + 1..] ==> r in index)
    ensures PtrsOf(index, q[..k] + q[k + 1..]) == PtrsOf(index, q)[..k] + PtrsOf(index, q)[k + 1..]
  {
  }

  lemma RemovedNodes(s: State, orders: map<nat, Resting>, s': State, o: int)
    requires NodesOk(s, orders) && 0 <= o < |s.mem|
    requires s.mem[o].orderRef in s.index && s.index[s.mem[o].orderRef] == o
    requires |s'.mem| == |s.mem| && s'.free == s.free + [o] && s'.index == s.index - {s.mem[o].orderRef}
    requires forall p :: 0 <= p < |s.mem| && p != o ==>
               s'.mem[p] == s.mem[p].(prev := s'.mem[p].prev, next := s'.mem[p].next)
    ensures NodesOk(s', orders - {s.mem[o].orderRef})
  {
    var ref, orders' := s.mem[o].orderRef, orders - {s.mem[o].orderRef};
    assert o !in s.free;
    forall r {:trigger s'.index[r]} | r in s'.index
      ensures 0 <= s'.index[r] < |s'.mem| && s'.index[r] !in s'.free
      ensures s'.mem[s'.index[r]].orderRef == r && orders'[r] == RestingOf(s'.mem[s'.index[r]])
    {
      LiveElsewhere(s, orders, o, r);
    }
    forall p | 0 <= p < |s'.mem| && p !in s'.free
      ensures s'.mem[p].orderRef in s'.index && s'.index[s'.mem[p].orderRef] == p
    {
      assert p !in s.free && p != o;
    }
    OneLess(s.index, ref);
  }

  lemma LiveElsewhere(s: State, orders: map<nat, Resting>, o: int, r: nat)
    requires NodesOk(s, orders) && 0 <= o < |s.mem| && s.mem[o].orderRef in s.index && s.index[s.mem[o].orderRef] == o
    requires r in s.index && r != s.mem[o].orderRef
    ensures 0 <= s.index[r] < |s.mem| && s.index[r] != o && s.index[r] !in s.free
    ensures s.mem[s.index[r]].orderRef == r && orders[r] == RestingOf(s.mem[s.index[r]])
  {
  }

  lemma RemovedLevel(s: State, b: Book, s': State, b': Book, o: int, i: nat)
    requires i < |s.levels| == |s'.levels| && i < |b.queues| == |b.sides| && LevelOk(s, b, i)
    requires 0 <= o < |s.mem| && s.mem[o].orderRef in s.index && s.index[s.mem[o].orderRef] == o
    requires RemovedNode(s, b, s', o, i)
    requires var ref := s.mem[o].orderRef;
      && NoDup(b.queues[i]) && ref in b.queues[i] && b.orders[ref].size == s.mem[o].size
      && b'.orders == b.orders - {ref} && |b'.queues| == |b'.sides| == |b.queues|
      && b'.queues[i] == Without(b.queues[i], ref) && |b'.queues[i]| == |b.queues[i]| - 1
      && b'.sides[i] == if b'.queues[i] == [] then NoSide else b.sides[i]
    ensures LevelOk(s', b', i)
  {
    hide Dll, NoDup, Without, PtrsOf, SumSizes;
    var q, ref := b.queues[i], s.mem[o].orderRef;
    var q' := Without(q, ref);
    SumWithout(b.orders, q, ref);
    SumFrame(b.orders, b'.orders, q');
    assert PtrsOf(s'.index, q') == PtrsOf(s.index, q');
  }

  lemma RemovedOthers(s: State, b: Book, s': State, o: int, i: nat)
    requires Refines(s, b) && i < |s.levels| == |s'.levels| && LevelOk(s, b, i)
    requires 0 <= o < |s.mem| && s.mem[o].orderRef in s.index && s.index[s.mem[o].orderRef] == o && s.mem[o].levelIdx == i
    requires RemovedNode(s, b, s', o, i)
    ensures forall r {:trigger s.index[r]} :: r in s.index && b.orders[r].level != i ==>
              r in s'.index && s'.index[r] == s.index[r] && s'.mem[s.index[r]] == s.mem[s.index[r]] &&
              r in b.orders && r != s.mem[o].orderRef
  {
    hide WellFormed, Dll, LevelOk;
    forall r {:trigger s.index[r]} | r in s.index && b.orders[r].level != i
      ensures s'.mem[s.index[r]] == s.mem[s.index[r]] && r in s'.index
    {
      Separate(s, b, i, r);
    }
  }

  lemma Removed(s: State, b: Book, s': State, o: int, i: nat)
    requires Refines(s, b) && i < |s.levels| == |s'.levels| && LevelOk(s, b, i)
    requires 0 <= o < |s.mem| && s.mem[o].orderRef in s.index && s.index[s.mem[o].orderRef] == o && s.mem[o].levelIdx == i
    requires RemovedNode(s, b, s', o, i)
    ensures s.mem[o].orderRef in b.orders && Refines(s', Remove(b, s.mem[o].orderRef))
  {
    hide WellFormed, Dll, LevelOk, NodesOk;
    SameShape(b);
    var ref := s.mem[o].orderRef;
    var k := Located(s, b, ref);
    var b' := Remove(b, ref);
    RemoveWellFormed(b, ref);
    RemovedNodes(s, b.orders, s', o);
    RemovedLevel(s, b, s', b', o, i);
    RemovedOthers(s, b, s', o, i);
    OthersKept(s, b, s', b', i);
  }

  // The steps of remove_order, one after the other.
  function Detached(s: State, freeHead: int, o: int, i: nat): State
    requires LinksIn(s.mem, o) && i < |s.levels|
    requires s.mem[o].size <= s.levels[i].aggregateSize && 1 <= s.levels[i].orderCount
  {
    var lvl, m, node := s.levels[i], Unlinked(s.mem, o), s.mem[o];
    State(m[o := m[o].(next := freeHead)], s.free + [o], s.index - {node.orderRef},
          s.levels[i := PriceLevel(lvl.aggregateSize - node.size, lvl.orderCount - 1,
                                   if lvl.orderCount == 1 then NoSide else lvl.side,
                                   if node.prev == NULL then node.next else lvl.head,
                                   if node.next == NULL then node.prev else lvl.tail)])
  }

  // A live node can be detached, and its level's aggregate covers it exactly when it is alone.
  lemma DetachedNode(s: State, b: Book, freeHead: int, ref: nat)
    requires Refines(s, b) && ref in s.index && Chain(s.mem, s.free, freeHead)
    ensures ref in b.orders && b.orders[ref].level < |s.levels| && LevelOk(s, b, b.orders[ref].level)
    ensures var o, i := s.index[ref], b.orders[ref].level;
      && LinksIn(s.mem, o) && o !in s.free && s.mem[o].orderRef == ref && RestingOf(s.mem[o]) == b.orders[ref]
      && s.mem[o].size <= s.levels[i].aggregateSize && 1 <= s.levels[i].orderCount
      && (s.levels[i].orderCount == 1 ==> s.levels[i].aggregateSize == s.mem[o].size)
      && RemovedNode(s, b, Detached(s, freeHead, o, i), o, i)
      && Chain(Unlinked(s.mem, o), s.free, freeHead)
  {
    hide WellFormed, Dll, LevelOk, PtrsOf, Unlinked, Without, Refines, NodesOk, Chain;
    ShapeOf(s, b);
    var k := Located(s, b, ref);
    var i := b.orders[ref].level;
    LevelList(s, b, i);
    LevelSums(s, b, i, ref);
    FreedOk(s.mem, PtrsOf(s.index, b.queues[i]), s.levels[i].head, s.levels[i].tail, k, freeHead);
    LiveNotFree(s, b, i, s.free, s.index[ref]);
    ChainRange(s.mem, s.free, freeHead);
    ChainKept(s.mem, Unlinked(s.mem, s.index[ref]), s.free, freeHead);
  }

  lemma LevelSums(s: State, b: Book, i: nat, ref: nat)
    requires i < |s.levels| && i < |b.queues| && i < |b.sides| && LevelOk(s, b, i) && NoDup(b.queues[i]) && ref in b.queues[i]
    ensures ref in b.orders && b.orders[ref].size <= s.levels[i].aggregateSize && s.levels[i].orderCount == |b.queues[i]| >= 1
    ensures |b.queues[i]| == 1 ==> s.levels[i].aggregateSize == b.orders[ref].size
  {
    var q := b.queues[i];
    SumWithout(b.orders, q, ref);
    if |q| == 1 {
      assert q == [ref] && Without(q, ref) == [];
    }
  }

  // ----- one order smaller

  lemma Shrunk(s: State, b: Book, s': State, ref: nat, dec: nat)
    requires Refines(s, b) && ref in s.index && ref in b.orders && dec <= b.orders[ref].size
    requires 0 <= s.index[ref] < |s.mem| && b.orders[ref].level < |s.levels|
    requires var o, i := s.index[ref], b.orders[ref].level;
      && dec <= s.mem[o].size && dec <= s.levels[i].aggregateSize
      && s' == s.(mem := s.mem[o := s.mem[o].(size := s.mem[o].size - dec)],
                  levels := s.levels[i := s.levels[i].(aggregateSize := s.levels[i].aggregateSize - dec)])
    ensures Refines(s', Shrink(b, ref, dec))
  {
    hide WellFormed, Dll, LevelOk, NodesOk, SumSizes, PtrsOf;
    NodeFacts(s, b, ref);
    var o, i, b' := s.index[ref], b.orders[ref].level, Shrink(b, ref, dec);
    SameShape(b);
    ShrinkWellFormed(b, ref, dec);
    var k := QueuePlace(b, ref);
    ShrunkNodes(s, b.orders, s', ref, b'.orders[ref]);
    ShrunkLevel(s, b, s', b', i, ref);
    OthersKept(s, b, s', b', i);
  }

  lemma ShrunkNodes(s: State, orders: map<nat, Resting>, s': State, ref: nat, rest: Resting)
    requires NodesOk(s, orders) && ref in s.index && s' == s.(mem := s'.mem, levels := s'.levels) && |s'.mem| == |s.mem|
    requires forall p :: 0 <= p < |s.mem| && p != s.index[ref] ==> s'.mem[p] == s.mem[p]
    requires s'.mem[s.index[ref]].orderRef == ref && rest == RestingOf(s'.mem[s.index[ref]])
    ensures NodesOk(s', orders[ref := rest])
  {
  }

  lemma ShrunkLevel(s: State, b: Book, s': State, b': Book, i: nat, ref: nat)
    requires i < |s.levels| == |s'.levels| && i < |b.queues| == |b.sides| && LevelOk(s, b, i)
    requires |b'.queues| == |b'.sides| == |b.queues| && b'.queues[i] == b.queues[i] && b'.sides[i] == b.sides[i]
    requires NoDup(b.queues[i]) && ref in b.queues[i] && ref in b'.orders && b'.orders == b.orders[ref := b'.orders[ref]]
    requires s'.levels[i] == s.levels[i].(aggregateSize := s'.levels[i].aggregateSize)
    requires s'.levels[i].aggregateSize + b.orders[ref].size == s.levels[i].aggregateSize + b'.orders[ref].size
    requires s'.index == s.index && |s'.mem| == |s.mem|
    requires forall p :: 0 <= p < |s.mem| ==> s'.mem[p].prev == s.mem[p].prev && s'.mem[p].next == s.mem[p].next
    ensures LevelOk(s', b', i)
  {
    SumShrink(b.orders, b.queues[i], ref, b'.orders[ref]);
  }
}
