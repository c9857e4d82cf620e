/**
 The recency-ordered doubly linked list that the memory tiers use for LRU
 eviction (`DoubleLinkedList` with its `DoubleLinkedListNode`s).

 Nodes live in an arena indexed by stable handles; each node carries its
 payload and its `prev`/`next` links. The list keeps `first`, `last` and an
 incrementally maintained `size`. The abstract content of a list is the
 sequence of handles from first to last: `Realizes(l, o)` ties the links to a
 sequence `o`, and `Order(l)` is the (unique) such sequence of a valid list.
 Every operation is specified by what it does to `Order`.
 */
module DoubleLinkedList {
  import opened Options

  /** Stable handle of a node; stands in for the node object's identity. */
  type NodeId = nat

  /** A `DoubleLinkedListNode`: its payload and its two links. */
  datatype Node<T> = Node(payload: T, prev: Option<NodeId>, next: Option<NodeId>)

  /** The list: the attached nodes, the two ends and the element count. */
  datatype DList<T> = DList(nodes: map<NodeId, Node<T>>, first: Option<NodeId>, last: Option<NodeId>, size: nat)

  /** No handle occurs twice. */
  ghost predicate Distinct(o: seq<NodeId>) {
    forall i, j :: 0 <= i < j < |o| ==> o[i] != o[j]
  }

  /** The node at position `i` of `o` is attached and linked to its neighbours in `o`. */
  ghost predicate LinkedAt<T>(l: DList<T>, o: seq<NodeId>, i: int)
    requires 0 <= i < |o|
  {
    && o[i] in l.nodes
    && l.nodes[o[i]].prev == (if i == 0 then None else Some(o[i - 1]))
    && l.nodes[o[i]].next == (if i == |o| - 1 then None else Some(o[i + 1]))
  }

  /** The links, ends and count of `l` spell out exactly the order `o`. */
  ghost predicate Realizes<T>(l: DList<T>, o: seq<NodeId>) {
    && Distinct(o)
    && l.size == |o|
    && (forall x :: x in l.nodes <==> x in o)
    && l.first == (if o == [] then None else Some(o[0]))
    && l.last == (if o == [] then None else Some(o[|o| - 1]))
    && (forall i :: 0 <= i < |o| ==> LinkedAt(l, o, i))
  }

  /** The list invariant: some order is realized by the links. */
  ghost predicate Valid<T>(l: DList<T>) {
    exists o :: Realizes(l, o)
  }

  /** The abstract order of a valid list, from first to last. */
  ghost function Order<T>(l: DList<T>): (o: seq<NodeId>)
    requires Valid(l)
    ensures Realizes(l, o)
  {
    var o :| Realizes(l, o); o
  }

  /** The payload of every attached node. */
  ghost function PayloadMap<T>(l: DList<T>): map<NodeId, T> {
    map x | x in l.nodes :: l.nodes[x].payload
  }

  /** The payloads of a valid list, from first to last. */
  ghost function Entries<T>(l: DList<T>): seq<T>
    requires Valid(l)
  {
    var o := Order(l);
    seq(|o|, i requires 0 <= i < |o| => l.nodes[o[i]].payload)
  }

  /** Position of `x` in `o`: its first occurrence. */
  function IndexOf(o: seq<NodeId>, x: NodeId): (k: nat)
    requires x in o
    ensures k < |o| && o[k] == x
    ensures forall j :: 0 <= j < k ==> o[j] != x
  {
    if o[0] == x then 0 else 1 + IndexOf(o[1..], x)
  }

  /** `o` with the first occurrence of `x` taken out. */
  function Without(o: seq<NodeId>, x: NodeId): seq<NodeId>
    requires x in o
  {
    var k := IndexOf(o, x);
    o[..k] + o[k + 1..]
  }

  // ---------------------------------------------------------------------
  // Uniqueness of the abstract order

  lemma {:induction false} AgreeAt<T>(l: DList<T>, o1: seq<NodeId>, o2: seq<NodeId>, i: nat)
    requires Realizes(l, o1) && Realizes(l, o2)
    requires i < |o1|
    ensures o1[i] == o2[i]
  {
    if i > 0 {
      AgreeAt(l, o1, o2, i - 1);
      assert LinkedAt(l, o1, i - 1) && LinkedAt(l, o2, i - 1);
    }
  }

  /** The links determine the order: a list realizes at most one sequence. */
  lemma RealizesUnique<T>(l: DList<T>, o1: seq<NodeId>, o2: seq<NodeId>)
    requires Realizes(l, o1) && Realizes(l, o2)
    ensures o1 == o2
  {
    forall i | 0 <= i < |o1|
      ensures o1[i] == o2[i]
    {
      AgreeAt(l, o1, o2, i);
    }
  }

  lemma OrderIs<T>(l: DList<T>, o: seq<NodeId>)
    requires Realizes(l, o)
    ensures Valid(l) && Order(l) == o
  {
    RealizesUnique(l, Order(l), o);
  }

  /** Links of attached nodes point at other attached nodes. */
  ghost predicate LinksClosed<T>(l: DList<T>) {
    forall x :: x in l.nodes ==>
      && (l.nodes[x].prev.Some? ==> l.nodes[x].prev.value in l.nodes && l.nodes[x].prev.value != x)
      && (l.nodes[x].next.Some? ==> l.nodes[x].next.value in l.nodes && l.nodes[x].next.value != x)
  }

  lemma ValidLinksClosed<T>(l: DList<T>)
    requires Valid(l)
    ensures LinksClosed(l)
    ensures l.first.Some? ==> l.first.value in l.nodes
    ensures l.last.Some? ==> l.last.value in l.nodes
  {
    var o := Order(l);
    forall x | x in l.nodes
      ensures l.nodes[x].prev.Some? ==> l.nodes[x].prev.value in l.nodes && l.nodes[x].prev.value != x
      ensures l.nodes[x].next.Some? ==> l.nodes[x].next.value in l.nodes && l.nodes[x].next.value != x
    {
      var k := IndexOf(o, x);
      NodeAt(l, o, k);
    }
  }

  /** The links of the node at position `k` of a realized order. */
  lemma NodeAt<T>(l: DList<T>, o: seq<NodeId>, k: nat)
    requires Realizes(l, o) && k < |o|
    ensures o[k] in l.nodes
    ensures l.nodes[o[k]].prev == (if k == 0 then None else Some(o[k - 1]))
    ensures l.nodes[o[k]].next == (if k == |o| - 1 then None else Some(o[k + 1]))
    ensures k > 0 ==> o[k - 1] in l.nodes && o[k - 1] != o[k]
    ensures k < |o| - 1 ==> o[k + 1] in l.nodes && o[k + 1] != o[k]
  {
    assert LinkedAt(l, o, k);
    if k > 0 {
      assert o[k - 1] in o;
    }
    if k < |o| - 1 {
      assert o[k + 1] in o;
    }
  }

  /** A list's payload map is `m` when its attached nodes are `m`'s keys and carry `m`'s payloads. */
  lemma PayloadMapIs<T>(l: DList<T>, m: map<NodeId, T>)
    requires l.nodes.Keys == m.Keys
    requires forall x :: x in m ==> l.nodes[x].payload == m[x]
    ensures PayloadMap(l) == m
  {
  }

  /** The handles occurring in `o`. */
  ghost function Elems(o: seq<NodeId>): set<NodeId> {
    set x: NodeId | x in o
  }

  /** The count of a set built from a duplicate-free sequence is its length. */
  lemma {:induction false} DistinctCard(o: seq<NodeId>)
    requires Distinct(o)
    ensures |Elems(o)| == |o|
  {
    if o != [] {
      var t := o[1..];
      assert Distinct(t);
      DistinctCard(t);
      forall x
        ensures x in o <==> x in t || x == o[0]
      {
        if x in o && x != o[0] {
          var k := IndexOf(o, x);
          assert t[k - 1] == x;
        }
        if x in t {
          var k := IndexOf(t, x);
          assert o[k + 1] == x;
        }
      }
      assert o[0] !in t by {
        forall j | 0 <= j < |t|
          ensures t[j] != o[0]
        {
          assert t[j] == o[j + 1];
        }
      }
      assert Elems(o) == Elems(t) + {o[0]};
    }
  }

  // ---------------------------------------------------------------------
  // Raw link rewrites: the relinking the model assumes, stated on the arena

  function LinkFirst<T>(l: DList<T>, id: NodeId, p: T): DList<T>
    requires l.first.Some? ==> l.first.value in l.nodes
  {
    match l.first
    case None => DList(l.nodes[id := Node(p, None, None)], Some(id), Some(id), l.size + 1)
    case Some(f) =>
      DList(l.nodes[f := l.nodes[f].(prev := Some(id))][id := Node(p, None, Some(f))], Some(id), l.last, l.size + 1)
  }

  function LinkLast<T>(l: DList<T>, id: NodeId, p: T): DList<T>
    requires l.last.Some? ==> l.last.value in l.nodes
  {
    match l.last
    case None => DList(l.nodes[id := Node(p, None, None)], Some(id), Some(id), l.size + 1)
    case Some(t) =>
      DList(l.nodes[t := l.nodes[t].(next := Some(id))][id := Node(p, Some(t), None)], l.first, Some(id), l.size + 1)
  }

  /** Detaches `id` from wherever it sits, relinking its two neighbours. */
  function Unlink<T>(l: DList<T>, id: NodeId): DList<T>
    requires id in l.nodes && LinksClosed(l)
    requires l.size > 0
  {
    var n := l.nodes[id];
    var m0 := l.nodes - {id};
    var m1 := if n.prev.Some? then m0[n.prev.value := m0[n.prev.value].(next := n.next)] else m0;
    var m2 := if n.next.Some? then m1[n.next.value := m1[n.next.value].(prev := n.prev)] else m1;
    DList(m2,
          if n.prev.Some? then l.first else n.next,
          if n.next.Some? then l.last else n.prev,
          l.size - 1)
  }

  lemma LinkFirstRealizes<T>(l: DList<T>, o: seq<NodeId>, id: NodeId, p: T)
    requires Realizes(l, o) && id !in l.nodes
    ensures l.first.Some? ==> l.first.value in l.nodes
    ensures Realizes(LinkFirst(l, id, p), [id] + o)
    ensures PayloadMap(LinkFirst(l, id, p)) == PayloadMap(l)[id := p]
  {
    if o != [] {
      NodeAt(l, o, 0);
    }
    var r := LinkFirst(l, id, p);
    var o' := [id] + o;
    assert id !in o;
    forall i, j | 0 <= i < j < |o'|
      ensures o'[i] != o'[j]
    {
      assert o'[j] == o[j - 1];
      if i > 0 {
        assert o'[i] == o[i - 1];
      }
    }
    forall i | 0 <= i < |o'|
      ensures LinkedAt(r, o', i)
    {
      if i > 0 {
        assert o'[i] == o[i - 1];
        NodeAt(l, o, i - 1);
        if i < |o| {
          assert o'[i + 1] == o[i];
        }
      }
    }
    PayloadMapIs(r, PayloadMap(l)[id := p]);
  }

  lemma LinkLastRealizes<T>(l: DList<T>, o: seq<NodeId>, id: NodeId, p: T)
    requires Realizes(l, o) && id !in l.nodes
    ensures l.last.Some? ==> l.last.value in l.nodes
    ensures Realizes(LinkLast(l, id, p), o + [id])
    ensures PayloadMap(LinkLast(l, id, p)) == PayloadMap(l)[id := p]
  {
    if o != [] {
      NodeAt(l, o, |o| - 1);
    }
    var r := LinkLast(l, id, p);
    var o' := o + [id];
    assert id !in o;
    forall i, j | 0 <= i < j < |o'|
      ensures o'[i] != o'[j]
    {
      assert o'[i] == o[i];
      if j < |o| {
        assert o'[j] == o[j];
      }
    }
    forall i | 0 <= i < |o'|
      ensures LinkedAt(r, o', i)
    {
      if i < |o| {
        assert o'[i] == o[i];
        NodeAt(l, o, i);
        if i > 0 {
          assert o'[i - 1] == o[i - 1];
        }
      }
    }
    PayloadMapIs(r, PayloadMap(l)[id := p]);
  }

  /** Positions in `Without(o, id)` against positions in `o`. */
  lemma WithoutAt(o: seq<NodeId>, id: NodeId)
    requires id in o
    ensures |Without(o, id)| == |o| - 1
    ensures forall j :: 0 <= j < IndexOf(o, id) ==> Without(o, id)[j] == o[j]
    ensures forall j :: IndexOf(o, id) <= j < |o| - 1 ==> Without(o, id)[j] == o[j + 1]
  {
  }

  lemma WithoutDistinct(o: seq<NodeId>, id: NodeId)
    requires id in o && Distinct(o)
    ensures Distinct(Without(o, id))
    ensures forall x :: x in Without(o, id) <==> x in o && x != id
  {
    var k := IndexOf(o, id);
    var o' := Without(o, id);
    WithoutAt(o, id);
    forall i, j | 0 <= i < j < |o'|
      ensures o'[i] != o'[j]
    {
      var i1 := if i < k then i else i + 1;
      var j1 := if j < k then j else j + 1;
      assert o'[i] == o[i1] && o'[j] == o[j1] && i1 < j1;
    }
    forall x
      ensures x in o' <==> x in o && x != id
    {
      if x in o {
        var i := IndexOf(o, x);
        if i < k {
          assert o'[i] == x;
        } else if i > k {
          assert o'[i - 1] == x;
        }
      }
      if x in o' {
        var i := IndexOf(o', x);
        if i < k {
          assert o[i] == x;
        } else {
          assert o[i + 1] == x;
        }
      }
    }
  }

  /** What `Unlink` does to each remaining node: only the neighbours' links change. */
  lemma UnlinkNode<T>(l: DList<T>, id: NodeId, x: NodeId)
    requires id in l.nodes && LinksClosed(l) && l.size > 0
    requires x in l.nodes && x != id
    ensures x in Unlink(l, id).nodes
    ensures Unlink(l, id).nodes[x].payload == l.nodes[x].payload
    ensures Unlink(l, id).nodes[x].prev
         == (if l.nodes[id].next == Some(x) then l.nodes[id].prev else l.nodes[x].prev)
    ensures Unlink(l, id).nodes[x].next
         == (if l.nodes[id].prev == Some(x) then l.nodes[id].next else l.nodes[x].next)
  {
  }

  /** A node before the detached one keeps its links, except that the predecessor skips it. */
  lemma UnlinkLinkedBefore<T>(l: DList<T>, o: seq<NodeId>, id: NodeId, i: nat)
    requires Realizes(l, o) && id in l.nodes && LinksClosed(l) && l.size > 0
    requires i < IndexOf(o, id)
    ensures |Without(o, id)| == |o| - 1
    ensures LinkedAt(Unlink(l, id), Without(o, id), i)
  {
    var k := IndexOf(o, id);
    NodeAt(l, o, k);
    var o' := Without(o, id);
    WithoutAt(o, id);
    NodeAt(l, o, i);
    UnlinkNode(l, id, o[i]);
    if i > 0 {
      assert o'[i - 1] == o[i - 1];
    }
    if i + 1 < k {
      assert o'[i + 1] == o[i + 1];
    } else if i + 1 < |o'| {
      assert o'[i + 1] == o[i + 2];
    }
  }

  /** A node after the detached one moves one place forward; the successor skips it. */
  lemma UnlinkLinkedAfter<T>(l: DList<T>, o: seq<NodeId>, id: NodeId, i: nat)
    requires Realizes(l, o) && id in l.nodes && LinksClosed(l) && l.size > 0
    requires IndexOf(o, id) <= i < |o| - 1
    ensures |Without(o, id)| == |o| - 1
    ensures LinkedAt(Unlink(l, id), Without(o, id), i)
  {
    var k := IndexOf(o, id);
    NodeAt(l, o, k);
    var o' := Without(o, id);
    WithoutAt(o, id);
    NodeAt(l, o, i + 1);
    UnlinkNode(l, id, o[i + 1]);
    if i > k {
      assert o'[i - 1] == o[i];
      NodeAt(l, o, i);
    } else if i > 0 {
      assert o'[i - 1] == o[i - 1];
    }
    if i + 1 < |o'| {
      assert o'[i + 1] == o[i + 2];
    }
  }

  lemma UnlinkLinks<T>(l: DList<T>, o: seq<NodeId>, id: NodeId)
    requires Realizes(l, o) && id in l.nodes && LinksClosed(l) && l.size > 0
    ensures forall i :: 0 <= i < |Without(o, id)| ==> LinkedAt(Unlink(l, id), Without(o, id), i)
  {
    WithoutAt(o, id);
    forall i | 0 <= i < |Without(o, id)|
      ensures LinkedAt(Unlink(l, id), Without(o, id), i)
    {
      if i < IndexOf(o, id) {
        UnlinkLinkedBefore(l, o, id, i);
      } else {
        UnlinkLinkedAfter(l, o, id, i);
      }
    }
  }

  lemma UnlinkRealizes<T>(l: DList<T>, o: seq<NodeId>, id: NodeId)
    requires Realizes(l, o) && id in l.nodes
    ensures LinksClosed(l) && l.size > 0
    ensures Realizes(Unlink(l, id), Without(o, id))
    ensures PayloadMap(Unlink(l, id)) == PayloadMap(l) - {id}
  {
    OrderIs(l, o);
    ValidLinksClosed(l);
    var k := IndexOf(o, id);
    NodeAt(l, o, k);
    var r := Unlink(l, id);
    var o' := Without(o, id);
    WithoutAt(o, id);
    WithoutDistinct(o, id);
    UnlinkLinks(l, o, id);
    if o' != [] {
      if k == 0 {
        assert o'[0] == o[1];
      } else {
        assert o'[0] == o[0];
      }
      if k == |o| - 1 {
        assert o'[|o'| - 1] == o[k - 1];
      } else {
        assert o'[|o'| - 1] == o[|o| - 1];
      }
    }
    UnlinkPayloads(l, id);
  }

  lemma UnlinkPayloads<T>(l: DList<T>, id: NodeId)
    requires id in l.nodes && LinksClosed(l) && l.size > 0
    ensures PayloadMap(Unlink(l, id)) == PayloadMap(l) - {id}
  {
    var r := Unlink(l, id);
    var m := PayloadMap(l) - {id};
    assert r.nodes.Keys == l.nodes.Keys - {id};
    forall x | x in m
      ensures r.nodes[x].payload == m[x]
    {
      UnlinkNode(l, id, x);
    }
    PayloadMapIs(r, m);
  }

  // ---------------------------------------------------------------------
  // Operations

  /** A new, empty list. */
  function Empty<T>(): (r: DList<T>)
    ensures Valid(r) && Order(r) == []
    ensures PayloadMap(r) == map[]
  {
    var e := DList(map[], None, None, 0);
    OrderIs(e, []);
    e
  }

  /** `addFirst`: inserts an unattached node at the front. */
  function AddFirst<T>(l: DList<T>, id: NodeId, p: T): (r: DList<T>)
    requires Valid(l) && id !in l.nodes
    ensures Valid(r) && Order(r) == [id] + Order(l)
    ensures PayloadMap(r) == PayloadMap(l)[id := p]
  {
    LinkFirstRealizes(l, Order(l), id, p);
    OrderIs(LinkFirst(l, id, p), [id] + Order(l));
    LinkFirst(l, id, p)
  }

  /** `addLast`: inserts an unattached node at the back. */
  function AddLast<T>(l: DList<T>, id: NodeId, p: T): (r: DList<T>)
    requires Valid(l) && id !in l.nodes
    ensures Valid(r) && Order(r) == Order(l) + [id]
    ensures PayloadMap(r) == PayloadMap(l)[id := p]
  {
    LinkLastRealizes(l, Order(l), id, p);
    OrderIs(LinkLast(l, id, p), Order(l) + [id]);
    LinkLast(l, id, p)
  }

  /** The removal step of `makeLast`: detaches an attached node. */
  function Detach<T>(l: DList<T>, id: NodeId): (r: DList<T>)
    requires Valid(l) && id in l.nodes
    ensures Valid(r) && Order(r) == Without(Order(l), id)
    ensures PayloadMap(r) == PayloadMap(l) - {id}
  {
    UnlinkRealizes(l, Order(l), id);
    OrderIs(Unlink(l, id), Without(Order(l), id));
    Unlink(l, id)
  }

  lemma LastHasNoNext<T>(l: DList<T>, id: NodeId)
    requires Valid(l) && id in l.nodes && l.nodes[id].next.None?
    ensures Without(Order(l), id) + [id] == Order(l)
  {
    var o := Order(l);
    var k := IndexOf(o, id);
    NodeAt(l, o, k);
    assert k == |o| - 1;
    assert o == o[..k] + [o[k]];
  }

  /**
   `makeLast`: the LRU touch. A node without successor (the last one, or the
   only one) stays put; any other node is detached and re-inserted at the
   back. Either way the other nodes keep their relative order.
   */
  function MakeLast<T>(l: DList<T>, id: NodeId): (r: DList<T>)
    requires Valid(l) && id in l.nodes
    ensures Valid(r) && Order(r) == Without(Order(l), id) + [id]
    ensures PayloadMap(r) == PayloadMap(l)
  {
    var n := l.nodes[id];
    if n.next.None? then
      LastHasNoNext(l, id);
      l
    else
      var d := Detach(l, id);
      assert PayloadMap(d)[id := n.payload] == PayloadMap(l);
      AddLast(d, id, n.payload)
  }

  /** `getFirst`: peeks at the front; absent on an empty list. */
  function GetFirst<T>(l: DList<T>): (r: Option<NodeId>)
    requires Valid(l)
    ensures r.None? <==> Order(l) == []
    ensures r.Some? ==> r.value == Order(l)[0]
  {
    l.first
  }

  /** `getLast`: peeks at the back; absent on an empty list. */
  function GetLast<T>(l: DList<T>): (r: Option<NodeId>)
    requires Valid(l)
    ensures r.None? <==> Order(l) == []
    ensures r.Some? ==> r.value == Order(l)[|Order(l)| - 1]
  {
    l.last
  }

  /** `size`: the kept count equals the number of attached nodes. */
  function Size<T>(l: DList<T>): (r: nat)
    requires Valid(l)
    ensures r == |Order(l)|
    ensures r == |l.nodes|
  {
    var o := Order(l);
    DistinctCard(o);
    assert l.nodes.Keys == Elems(o);
    l.size
  }

  /**
   `debugDumpEntries`: walks the links from first to last and returns the
   payloads met on the way, without changing the list.
   */
  method DebugDumpEntries<T>(l: DList<T>) returns (entries: seq<T>)
    requires Valid(l)
    ensures entries == Entries(l)
  {
    ghost var o := Order(l);
    ghost var i := 0;
    entries := [];
    var cur := l.first;
    while cur.Some?
      invariant 0 <= i <= |o|
      invariant cur == (if i < |o| then Some(o[i]) else None)
      invariant entries == Entries(l)[..i]
      decreases |o| - i
    {
      assert LinkedAt(l, o, i);
      var n := l.nodes[cur.value];
      entries := entries + [n.payload];
      cur := n.next;
      i := i + 1;
    }
    assert entries == Entries(l)[..|o|];
  }
}
