/**
 Properties of the eviction list that relate several operations: the
 behaviour its unit tests pin down for `addFirst`, `addLast`, `makeLast` and
 `debugDumpEntries`, stated for every list rather than for the tests'
 particular nodes.
 */
module DoubleLinkedListProperties {
  import opened Options
  import opened DoubleLinkedList

  /**
   The abstraction is faithful: two valid lists with the same order and the
   same payloads are the same list, links and count included.
   */
  lemma Canonical<T>(l1: DList<T>, l2: DList<T>)
    requires Valid(l1) && Valid(l2)
    requires Order(l1) == Order(l2) && PayloadMap(l1) == PayloadMap(l2)
    ensures l1 == l2
  {
    var o := Order(l1);
    assert l1.nodes.Keys == l2.nodes.Keys;
    forall x | x in l1.nodes
      ensures l1.nodes[x] == l2.nodes[x]
    {
      var k := IndexOf(o, x);
      NodeAt(l1, o, k);
      NodeAt(l2, o, k);
      assert PayloadMap(l1)[x] == l1.nodes[x].payload;
      assert PayloadMap(l2)[x] == l2.nodes[x].payload;
    }
    assert l1.nodes == l2.nodes;
  }

  /** `addLast` on an empty list: the node becomes both last and first. */
  lemma AddLastOnEmpty<T>(l: DList<T>, id: NodeId, p: T)
    requires Valid(l) && Size(l) == 0
    ensures id !in l.nodes
    ensures GetLast(AddLast(l, id, p)) == Some(id)
    ensures GetFirst(AddLast(l, id, p)) == Some(id)
    ensures Size(AddLast(l, id, p)) == 1
  {
  }

  /** `addLast` on a non-empty list: the new node is last, the first stays. */
  lemma AddLastOnNonEmpty<T>(l: DList<T>, id: NodeId, p: T)
    requires Valid(l) && Size(l) > 0 && id !in l.nodes
    ensures GetLast(AddLast(l, id, p)) == Some(id)
    ensures GetFirst(AddLast(l, id, p)) == GetFirst(l)
    ensures Size(AddLast(l, id, p)) == Size(l) + 1
  {
  }

  /** Two successive `addFirst`s: the node added second is first, the other right behind it. */
  lemma AddFirstTwice<T>(l: DList<T>, a: NodeId, pa: T, b: NodeId, pb: T)
    requires Valid(l) && a !in l.nodes && b !in l.nodes && a != b
    ensures b !in AddFirst(l, a, pa).nodes
    ensures Order(AddFirst(AddFirst(l, a, pa), b, pb)) == [b, a] + Order(l)
    ensures GetFirst(AddFirst(AddFirst(l, a, pa), b, pb)) == Some(b)
  {
    assert [b] + ([a] + Order(l)) == [b, a] + Order(l);
  }

  /** `makeLast` of the first of at least two nodes: it becomes last and the second node becomes first. */
  lemma MakeLastOfFirst<T>(l: DList<T>, id: NodeId)
    requires Valid(l) && Size(l) >= 2 && GetFirst(l) == Some(id)
    ensures id in l.nodes
    ensures Size(MakeLast(l, id)) == Size(l)
    ensures GetLast(MakeLast(l, id)) == Some(id)
    ensures GetFirst(MakeLast(l, id)) == Some(Order(l)[1])
  {
    var o := Order(l);
    NodeAt(l, o, 0);
    assert IndexOf(o, id) == 0;
  }

  /** `makeLast` of the last node leaves the list exactly as it was. */
  lemma MakeLastOfLast<T>(l: DList<T>, id: NodeId)
    requires Valid(l) && GetLast(l) == Some(id)
    ensures id in l.nodes
    ensures MakeLast(l, id) == l
  {
    var o := Order(l);
    NodeAt(l, o, |o| - 1);
    assert Without(o, id) + [id] == o;
    Canonical(MakeLast(l, id), l);
  }

  /** `makeLast` of the only node leaves it both first and last. */
  lemma MakeLastOfSole<T>(l: DList<T>, id: NodeId)
    requires Valid(l) && Size(l) == 1 && id in l.nodes
    ensures MakeLast(l, id) == l
    ensures GetFirst(MakeLast(l, id)) == Some(id) && GetLast(MakeLast(l, id)) == Some(id)
    ensures Size(MakeLast(l, id)) == 1
  {
    var o := Order(l);
    assert o[0] == id by {
      var k := IndexOf(o, id);
    }
    MakeLastOfLast(l, id);
  }

  /** `makeLast` of an interior node: it becomes last, the first stays, the count stays. */
  lemma MakeLastOfInterior<T>(l: DList<T>, id: NodeId)
    requires Valid(l) && id in l.nodes
    requires 0 < IndexOf(Order(l), id) < Size(l) - 1
    ensures Size(MakeLast(l, id)) == Size(l)
    ensures GetLast(MakeLast(l, id)) == Some(id)
    ensures GetFirst(MakeLast(l, id)) == GetFirst(l)
  {
    WithoutAt(Order(l), id);
  }

  /** Where a node other than `id` ends up in `Without(o, id) + [id]`. */
  lemma IndexAfterMakeLast(o: seq<NodeId>, id: NodeId, x: NodeId)
    requires Distinct(o) && id in o && x in o && x != id
    ensures x in Without(o, id) + [id]
    ensures var k := IndexOf(o, id); var i := IndexOf(o, x);
            IndexOf(Without(o, id) + [id], x) == if i < k then i else i - 1
  {
    var k := IndexOf(o, id);
    var i := IndexOf(o, x);
    var o' := Without(o, id) + [id];
    WithoutAt(o, id);
    var j := if i < k then i else i - 1;
    assert o'[j] == x;
  }

  /** `makeLast` keeps the relative order of all the other nodes. */
  lemma MakeLastKeepsRelativeOrder<T>(l: DList<T>, id: NodeId, x: NodeId, y: NodeId)
    requires Valid(l) && id in l.nodes && x in l.nodes && y in l.nodes && x != id && y != id
    ensures x in Order(MakeLast(l, id)) && y in Order(MakeLast(l, id))
    ensures IndexOf(Order(l), x) < IndexOf(Order(l), y)
        <==> IndexOf(Order(MakeLast(l, id)), x) < IndexOf(Order(MakeLast(l, id)), y)
  {
    var o := Order(l);
    IndexAfterMakeLast(o, id, x);
    IndexAfterMakeLast(o, id, y);
  }

  /** `makeLast` always leaves the node last and never changes the count or the attached nodes. */
  lemma MakeLastKeepsContents<T>(l: DList<T>, id: NodeId)
    requires Valid(l) && id in l.nodes
    ensures Size(MakeLast(l, id)) == Size(l)
    ensures GetLast(MakeLast(l, id)) == Some(id)
    ensures MakeLast(l, id).nodes.Keys == l.nodes.Keys
  {
    var r := MakeLast(l, id);
    WithoutAt(Order(l), id);
    assert |Order(r)| == |Order(l)|;
    assert PayloadMap(r) == PayloadMap(l);
    assert r.nodes.Keys == PayloadMap(r).Keys;
    assert l.nodes.Keys == PayloadMap(l).Keys;
  }

  /** `debugDumpEntries` covers every attached node's payload, one entry per node. */
  lemma EntriesCoverPayloads<T>(l: DList<T>)
    requires Valid(l)
    ensures |Entries(l)| == Size(l)
    ensures forall x :: x in l.nodes ==> l.nodes[x].payload in Entries(l)
  {
    var o := Order(l);
    forall x | x in l.nodes
      ensures l.nodes[x].payload in Entries(l)
    {
      var k := IndexOf(o, x);
      assert Entries(l)[k] == l.nodes[x].payload;
    }
  }

  /** The dump after `addLast` is the previous dump followed by the new payload. */
  lemma AddLastEntries<T>(l: DList<T>, id: NodeId, p: T)
    requires Valid(l) && id !in l.nodes
    ensures Entries(AddLast(l, id, p)) == Entries(l) + [p]
  {
    var r := AddLast(l, id, p);
    var o := Order(l);
    assert |Entries(r)| == |o| + 1;
    forall i | 0 <= i < |o|
      ensures Entries(r)[i] == Entries(l)[i]
    {
      assert Order(r)[i] == o[i];
      assert PayloadMap(r)[o[i]] == PayloadMap(l)[o[i]];
    }
    assert PayloadMap(r)[id] == p;
  }

  /** The dump after `addFirst` is the new payload followed by the previous dump. */
  lemma AddFirstEntries<T>(l: DList<T>, id: NodeId, p: T)
    requires Valid(l) && id !in l.nodes
    ensures Entries(AddFirst(l, id, p)) == [p] + Entries(l)
  {
    var r := AddFirst(l, id, p);
    var o := Order(l);
    assert |Entries(r)| == |o| + 1;
    forall i | 1 <= i <= |o|
      ensures Entries(r)[i] == Entries(l)[i - 1]
    {
      assert Order(r)[i] == o[i - 1];
      assert PayloadMap(r)[o[i - 1]] == PayloadMap(l)[o[i - 1]];
    }
    assert PayloadMap(r)[id] == p;
  }

  /** The dump test: two `addLast`s on a new list dump both payloads, in order. */
  lemma DumpAfterTwoAddLasts(p1: string, p2: string)
    ensures 2 !in AddLast(Empty<string>(), 1, p1).nodes
    ensures Entries(AddLast(AddLast(Empty<string>(), 1, p1), 2, p2)) == [p1, p2]
  {
    var l0 := Empty<string>();
    assert Entries(l0) == [];
    AddLastEntries(l0, 1, p1);
    AddLastEntries(AddLast(l0, 1, p1), 2, p2);
  }
}
