/** The intrusive circular list: nodes carry their own links, and a sentinel closes the ring. */
module UnsafeList {

  import opened Wrappers

  class Links {
    var next: Links?
    var prev: Links?

    constructor ()
      ensures !IsLinked() && prev == null
    {
      next, prev := null, null;
    }

    predicate IsLinked()
      reads this
    {
      next != null
    }
  }

  ghost predicate Distinct(s: seq<Links>) {
    forall i, j :: 0 <= i < j < |s| ==> s[i] != s[j]
  }

  /** Neighbours in the sequence point at each other. */
  ghost predicate Chained(s: seq<Links>)
    reads s
  {
    && (forall i :: 0 <= i < |s| - 1 ==> s[i].next == s[i + 1])
    && (forall i :: 0 < i < |s| ==> s[i].prev == s[i - 1])
  }

  /** Taking out position `i` and joining its neighbours leaves a chain. */
  lemma Bridged(s: seq<Links>, i: nat)
    requires 0 < i < |s| - 1
    requires forall j :: 0 <= j < |s| - 1 && j != i - 1 && j != i ==> s[j].next == s[j + 1]
    requires forall j :: 0 < j < |s| && j != i && j != i + 1 ==> s[j].prev == s[j - 1]
    requires s[i - 1].next == s[i + 1] && s[i + 1].prev == s[i - 1]
    ensures Chained(s[..i] + s[i + 1..])
  {
  }

  /** No link belongs to two places, except that the first may be the last. */
  ghost predicate Loop(s: seq<Links>) {
    && (forall i, j :: 0 <= i < j < |s| - 1 ==> s[i] != s[j])
    && (forall i, j :: 0 < i < j < |s| ==> s[i] != s[j])
  }

  /** Joins the neighbours of an entry and clears its links. */
  method Unlink(ghost ring: seq<Links>, ghost i: nat, entry: Links)
    requires 0 < i < |ring| - 1 && ring[i] == entry && Loop(ring) && Chained(ring)
    modifies ring
    ensures Chained(ring[..i] + ring[i + 1..]) && !entry.IsLinked() && entry.prev == null
  {
    assert ring[i].next == ring[i + 1] && ring[i].prev == ring[i - 1];
    var prev, next := entry.prev, entry.next;
    prev.next := next;
    next.prev := prev;
    entry.next := null;
    entry.prev := null;
    Bridged(ring, i);
  }

  lemma Without(head: Links, nodes: seq<Links>, i: nat)
    requires i < |nodes| && head !in nodes && Distinct(nodes)
    ensures var ring := [head] + nodes + [head];
            ring[..i + 1] + ring[i + 2..] == [head] + (nodes[..i] + nodes[i + 1..]) + [head]
    ensures head !in nodes[..i] + nodes[i + 1..] && Distinct(nodes[..i] + nodes[i + 1..])
  {
    var ring := [head] + nodes + [head];
    assert ring[..i + 1] == [head] + nodes[..i];
    assert ring[i + 2..] == nodes[i + 1..] + [head];
  }

  /** `List`; `nodes` is the sequence of entries it stands for. */
  class List {
    const head: Links
    ghost var nodes: seq<Links>

    /** From the sentinel through the entries and back. */
    ghost function Ring(): seq<Links>
      reads this
    {
      [head] + nodes + [head]
    }

    ghost predicate Valid()
      reads this, head, nodes
    {
      head !in nodes && Distinct(nodes) && Chained(Ring())
    }

    /** `List::new`, seen at the address where the sentinel's links are written. */
    constructor ()
      ensures Valid() && fresh(head) && nodes == []
    {
      head := new Links();
      nodes := [];
      new;
      head.next, head.prev := head, head;
    }

    /** An entry that is in no list is not in this one. */
    lemma UnlinkedIsOutside(entry: Links)
      requires Valid() && !entry.IsLinked()
      ensures entry !in Ring()
    {
      var ring := Ring();
      forall i | 0 <= i < |ring| ensures ring[i].next != null {
        var j := if i == |nodes| + 1 then 0 else i;
        assert ring[j].next == ring[j + 1];
      }
    }

    /** No link of the ring belongs to two places, except the sentinel, which opens and closes it. */
    lemma RingDistinct()
      requires Valid()
      ensures Loop(Ring())
    {
      var ring := Ring();
      assert forall i :: 0 < i <= |nodes| ==> ring[i] == nodes[i - 1] && ring[i] in nodes;
    }

    predicate IsEmpty()
      requires Valid()
      reads this, head, nodes
      ensures IsEmpty() <==> nodes == []
    {
      assert Ring()[0].next == Ring()[1];
      head.next == head
    }

    method PushBack(entry: Links)
      requires Valid() && !entry.IsLinked()
      modifies this, head, nodes, entry
      ensures Valid() && nodes == old(nodes) + [entry]
      ensures forall n :: n in old(nodes) ==> n.prev == old(n.prev)
    {
      UnlinkedIsOutside(entry);
      var tail := head.prev;
      ghost var was, n := Ring(), |nodes|;
      assert was[n + 1].prev == was[n];
      entry.prev := tail;
      entry.next := head;
      tail.next := entry;
      head.prev := entry;
      nodes := nodes + [entry];
      ghost var now := Ring();
      assert forall i :: 0 <= i <= n ==> now[i] == was[i];
    }

    method PopFront() returns (r: Option<Links>)
      requires Valid()
      modifies this, head, nodes
      ensures Valid()
      ensures r.None? <==> old(nodes) == []
      ensures r.None? ==> nodes == []
      ensures r.Some? ==> r.value == old(nodes)[0] && nodes == old(nodes)[1..]
                          && !r.value.IsLinked() && r.value.prev == null
    {
      if IsEmpty() {
        return None;
      }
      var first := head.next;
      ghost var was := Ring();
      assert was[0].next == was[1] && was[1].next == was[2];
      var second := first.next;
      head.next := second;
      second.prev := head;
      first.next := null;
      first.prev := null;
      nodes := nodes[1..];
      ghost var now := Ring();
      assert forall i :: 1 <= i < |now| ==> now[i] == was[i + 1];
      return Some(first);
    }

    method Front() returns (r: Option<Links>)
      requires Valid()
      ensures r.None? <==> nodes == []
      ensures r.Some? ==> r.value == nodes[0]
    {
      if IsEmpty() {
        return None;
      }
      assert Ring()[0].next == Ring()[1];
      return Some(head.next);
    }

    /** Takes out an entry wherever it stands. */
    method Remove(entry: Links) returns (ghost i: nat)
      requires Valid() && entry in nodes
      modifies this, head, nodes
      ensures Valid()
      ensures i < |old(nodes)| && entry == old(nodes)[i] && nodes == old(nodes)[..i] + old(nodes)[i + 1..]
      ensures !entry.IsLinked() && entry.prev == null
    {
      i :| 0 <= i < |nodes| && nodes[i] == entry;
      ghost var was := Ring();
      RingDistinct();
      Unlink(was, i + 1, entry);
      nodes := nodes[..i] + nodes[i + 1..];
      Without(head, old(nodes), i);
    }

    /** The list after its bytes have been copied to another address, as returning it by value does. */
    constructor Moved(from: List)
      requires from.Valid()
      ensures fresh(head) && head.next == from.head.next && head.prev == from.head.prev && nodes == from.nodes
      ensures !Valid() && head.next != head
    {
      head := new Links();
      nodes := from.nodes;
      new;
      head.next, head.prev := from.head.next, from.head.prev;
      assert from.Ring()[0].next == from.Ring()[1];
      if nodes == [] {
        assert Ring()[0].next != Ring()[1];
      } else {
        assert from.Ring()[1].prev == from.Ring()[0];
        assert Ring()[1].prev != Ring()[0];
      }
      assert !Chained(Ring());
    }
  }
}
