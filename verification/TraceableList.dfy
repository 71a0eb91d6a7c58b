/** The intrusive doubly linked list of the object pool, proved to refine a sequence of nodes. Deleting a node is
    recorded in a ghost sequence, so that "exactly once" and "never touched again" can be stated. */
module TraceableList {

  import opened Collections

  class Node<T, E> {
    var data: T
    var prev: Node?<T, E>
    var next: Node?<T, E>
    var extraInfo: E

    constructor (prev: Node?<T, E>, next: Node?<T, E>, extraInfo: E, data: T)
      ensures this.prev == prev && this.next == next && this.extraInfo == extraInfo && this.data == data
    {
      this.prev, this.next, this.extraInfo, this.data := prev, next, extraInfo, data;
    }
  }

  datatype Option<A> = None | Some(value: A)

  /** A position, with the tail the list had when begin() or end() made the iterator. */
  datatype Iterator<T, E> = Iterator(ptr: Node?<T, E>, implTail: Node?<T, E>)

  /** The node at a position; null just outside the list. */
  ghost function At<T, E>(ns: seq<Node<T, E>>, i: int): Node?<T, E>
  {
    if 0 <= i < |ns| then ns[i] else null
  }

  lemma AtIs<T, E>(ns: seq<Node<T, E>>, i: int)
    ensures At(ns, i) == if 0 <= i < |ns| then ns[i] else null
  {}

  ghost predicate Linked<T, E>(ns: seq<Node<T, E>>)
    reads ns`prev, ns`next
  {
    forall i | 0 <= i < |ns| :: ns[i].prev == At(ns, i - 1) && ns[i].next == At(ns, i + 1)
  }

  /** The nodes in the list and the deleted ones: nothing twice, nothing in both. */
  ghost predicate Separate<A>(ns: seq<A>, freed: seq<A>)
  {
    Distinct(ns) && Distinct(freed) && forall i, j | 0 <= i < |ns| && 0 <= j < |freed| :: ns[i] != freed[j]
  }

  lemma SeparateAfterInsert<A>(ns: seq<A>, freed: seq<A>, x: A, k: nat)
    requires Separate(ns, freed) && k <= |ns| && x !in ns && x !in freed
    ensures Separate(ns[..k] + [x] + ns[k..], freed)
  {}

  lemma SeparateAfterDelete<A>(ns: seq<A>, freed: seq<A>, k: nat)
    requires Separate(ns, freed) && k < |ns|
    ensures Separate(ns[..k] + ns[k + 1..], freed + [ns[k]])
  {}

  lemma SeparateIsDistinct<A>(ns: seq<A>, freed: seq<A>)
    requires Separate(ns, freed)
    ensures Distinct(ns)
  {}

  /** Deleting everything, in order, deletes nothing twice. */
  lemma SeparateThenAll<A>(ns: seq<A>, freed: seq<A>)
    requires Separate(ns, freed)
    ensures Distinct(freed + ns)
    ensures forall j | 0 <= j < |ns| :: ns[j] !in freed + ns[..j]
  {}

  lemma NextOf<T, E>(ns: seq<Node<T, E>>, j: nat)
    requires Linked(ns) && j <= |ns| && At(ns, j) != null
    ensures j < |ns| && At(ns, j) == ns[j] && ns[j].next == At(ns, j + 1)
  {}

  lemma EndOf<T, E>(ns: seq<Node<T, E>>, j: nat)
    requires j <= |ns| && At(ns, j) == null
    ensures j == |ns|
  {}

  lemma DeleteNext<T, E>(ns: seq<Node<T, E>>, lo: nat, j: nat)
    requires lo <= j < |ns|
    ensures
      var now := ns[..lo] + ns[j..];
      && |now| == |ns| - (j - lo) && now[lo] == ns[j] == At(ns, j)
      && At(now, lo) == ns[j] && At(now, lo + 1) == At(ns, j + 1)
      && now[..lo] + now[lo + 1..] == ns[..lo] + ns[j + 1..]
      && ns[lo..j] + [ns[j]] == ns[lo..j + 1]
  {}

  /** The links of ns just after x was put before position k. */
  ghost predicate LinkedIn<T, E>(ns: seq<Node<T, E>>, x: Node<T, E>, k: nat)
    reads ns`prev, ns`next, x`prev, x`next
  {
    && k <= |ns| && x.prev == At(ns, k - 1) && x.next == At(ns, k)
    && forall i | 0 <= i < |ns| ::
         && ns[i].prev == (if i == k then x else At(ns, i - 1))
         && ns[i].next == (if i == k - 1 then x else At(ns, i + 1))
  }

  /** The links of ns just after node k was taken out. */
  ghost predicate LinkedOut<T, E>(ns: seq<Node<T, E>>, k: nat)
    reads ns`prev, ns`next
  {
    forall i | 0 <= i < |ns| && i != k ::
      && ns[i].prev == (if i == k + 1 then At(ns, k - 1) else At(ns, i - 1))
      && ns[i].next == (if i == k - 1 then At(ns, k + 1) else At(ns, i + 1))
  }

  /** Inserting x before position k: only the neighbours' links had to change. */
  lemma LinkedAfterInsert<T, E>(ns: seq<Node<T, E>>, x: Node<T, E>, k: nat)
    requires LinkedIn(ns, x, k)
    ensures Linked(ns[..k] + [x] + ns[k..])
  {
    var after := ns[..k] + [x] + ns[k..];
    forall i | 0 <= i < |after|
      ensures after[i].prev == At(after, i - 1) && after[i].next == At(after, i + 1)
    {
      if i < k { assert after[i] == ns[i]; }
      else if i > k { assert after[i] == ns[i - 1]; }
    }
  }

  /** Deleting node k: only the neighbours' links had to change. */
  lemma LinkedAfterDelete<T, E>(ns: seq<Node<T, E>>, k: nat)
    requires k < |ns| && LinkedOut(ns, k)
    ensures Linked(ns[..k] + ns[k + 1..])
  {
    var after := ns[..k] + ns[k + 1..];
    forall i | 0 <= i < |after|
      ensures after[i].prev == At(after, i - 1) && after[i].next == At(after, i + 1)
    {
      if i < k { assert after[i] == ns[i]; } else { assert after[i] == ns[i + 1]; }
    }
  }

  lemma EndsAfterInsert<T, E>(ns: seq<Node<T, E>>, x: Node<T, E>, k: nat)
    requires k <= |ns|
    ensures
      var after := ns[..k] + [x] + ns[k..];
      && |after| == |ns| + 1
      && At(after, 0) == (if k == 0 then x else At(ns, 0))
      && At(after, |ns|) == (if k == |ns| then x else At(ns, |ns| - 1))
  {}

  lemma EndsAfterDelete<T, E>(ns: seq<Node<T, E>>, k: nat)
    requires k < |ns|
    ensures
      var after := ns[..k] + ns[k + 1..];
      && |after| == |ns| - 1
      && At(after, 0) == (if k == 0 then At(ns, 1) else At(ns, 0))
      && At(after, |ns| - 2) == (if k == |ns| - 1 then At(ns, |ns| - 2) else At(ns, |ns| - 1))
  {}

  /** In a list of distinct nodes a position is determined by its node. */
  lemma AtIsInjective<T, E>(ns: seq<Node<T, E>>, i: nat, j: nat)
    requires Distinct(ns) && i <= |ns| && j <= |ns|
    ensures At(ns, i) == At(ns, j) <==> i == j
  {}

  class List<T, E> {
    var head: Node?<T, E>
    var tail: Node?<T, E>
    var size: nat
    ghost var nodes: seq<Node<T, E>>
    ghost var freed: seq<Node<T, E>>

    ghost predicate Valid()
      reads this, nodes`prev, nodes`next
    {
      && size == |nodes| && head == At(nodes, 0) && tail == At(nodes, |nodes| - 1)
      && Linked(nodes) && Separate(nodes, freed)
    }

    lemma ValidIsDistinct()
      requires Valid()
      ensures Distinct(nodes)
    {
      hide Linked;
      SeparateIsDistinct(nodes, freed);
    }

    constructor ()
      ensures Valid() && nodes == [] && freed == []
    {
      head, tail, size := null, null, 0;
      nodes, freed := [], [];
    }

    method Begin() returns (it: Iterator<T, E>)
      requires Valid()
      ensures it == Iterator(At(nodes, 0), At(nodes, |nodes| - 1))
    {
      it := Iterator(head, tail);
    }

    method End() returns (it: Iterator<T, E>)
      requires Valid()
      ensures it == Iterator(null, At(nodes, |nodes| - 1))
    {
      it := Iterator(null, tail);
    }

    /** ++iterator: from node k to position k + 1. */
    method Advance(it: Iterator<T, E>, ghost k: nat) returns (r: Iterator<T, E>)
      requires Valid() && k < |nodes| && it.ptr == nodes[k]
      ensures r == it.(ptr := At(nodes, k + 1))
    {
      r := it.(ptr := it.ptr.next);
    }

    /** --iterator: from position k to position k - 1; the end position needs the remembered tail. Without one, as in an
        empty list, null is dereferenced, and there is no result. */
    method Retreat(it: Iterator<T, E>, ghost k: nat) returns (r: Option<Iterator<T, E>>)
      requires Valid() && k <= |nodes| && it.ptr == At(nodes, k)
      requires it.implTail == null || it.implTail == At(nodes, |nodes| - 1)
      ensures r.Some? <==> it.ptr != null || it.implTail != null
      ensures r.Some? ==> r.value == it.(ptr := At(nodes, k - 1))
    {
      if it.ptr == null && it.implTail != null {
        r := Some(it.(ptr := it.implTail));
      } else if it.ptr == null {
        r := None;
      } else {
        r := Some(it.(ptr := it.ptr.prev));
      }
    }

    /** The pointer surgery of an insertion before ptr, or at the end when ptr is null. */
    method LinkIn(node: Node<T, E>, ptr: Node?<T, E>, ghost ns: seq<Node<T, E>>, ghost k: nat)
      requires Linked(ns) && Distinct(ns) && node !in ns && k <= |ns|
      requires node.prev == null && node.next == ptr == At(ns, k)
      requires head == At(ns, 0) && tail == At(ns, |ns| - 1)
      modifies this`head, this`tail, node`prev, ns`prev, ns`next
      ensures LinkedIn(ns, node, k)
      ensures head == (if k == 0 then node else At(ns, 0))
      ensures tail == (if k == |ns| then node else At(ns, |ns| - 1))
    {
      hide At;
      AtIs(ns, 0);
      AtIs(ns, |ns| - 1);
      AtIs(ns, k);
      AtIs(ns, k - 1);
      if head == null {
        head, tail := node, node;
        return;
      }
      if ptr == null {
        tail.next := node;
        node.prev := tail;
        tail := node;
        return;
      }
      var left, right := ptr.prev, ptr;
      node.prev := right.prev;
      if left != null {
        left.next := node;
      }
      right.prev := node;
      if head == ptr {
        head := node;
      }
    }

    /** Inserts before position k: before a node, or at the end. */
    method EmplaceOne(where: Iterator<T, E>, extraInfo: E, data: T, ghost k: nat) returns (node: Node<T, E>)
      requires Valid() && k <= |nodes| && where.ptr == At(nodes, k)
      modifies this, nodes`prev, nodes`next
      ensures Valid() && fresh(node) && node.data == data && node.extraInfo == extraInfo
      ensures nodes == old(nodes)[..k] + [node] + old(nodes)[k..] && freed == old(freed)
    {
      hide Separate, Distinct, LinkedIn, Linked, At;
      ghost var before := nodes;
      node := new Node(null, where.ptr, extraInfo, data);
      SeparateIsDistinct(before, freed);
      SeparateAfterInsert(before, freed, node, k);
      size := size + 1;
      LinkIn(node, where.ptr, before, k);
      EndsAfterInsert(before, node, k);
      nodes := before[..k] + [node] + before[k..];
      LinkedAfterInsert(before, node, k);
    }

    /** The pointer surgery of a deletion. */
    method LinkOut(ptr: Node<T, E>, ghost ns: seq<Node<T, E>>, ghost k: nat)
      requires Linked(ns) && Distinct(ns) && k < |ns| && ptr == ns[k]
      requires head == At(ns, 0) && tail == At(ns, |ns| - 1)
      modifies this`head, this`tail, ns`prev, ns`next
      ensures LinkedOut(ns, k)
      ensures head == (if k == 0 then At(ns, 1) else At(ns, 0))
      ensures tail == (if k == |ns| - 1 then At(ns, |ns| - 2) else At(ns, |ns| - 1))
    {
      hide At;
      AtIs(ns, 0);
      AtIs(ns, |ns| - 1);
      AtIs(ns, k - 1);
      AtIs(ns, k + 1);
      var left, right := ptr.prev, ptr.next;
      if left != null {
        left.next := right;
      }
      if right != null {
        right.prev := left;
      }
      if head == ptr {
        head := right;
      }
      if tail == ptr {
        tail := left;
      }
    }

    /** Deletes node k. An empty list or the end position is refused. */
    method PopOne(which: Iterator<T, E>, ghost k: nat) returns (ok: bool)
      requires Valid() && k <= |nodes| && which.ptr == At(nodes, k)
      modifies this, nodes`prev, nodes`next
      ensures Valid() && (ok <==> k < |old(nodes)|)
      ensures !ok ==> nodes == old(nodes) && freed == old(freed)
      ensures ok ==> nodes == old(nodes)[..k] + old(nodes)[k + 1..] && freed == old(freed) + [old(nodes)[k]]
    {
      hide Separate, Distinct, LinkedOut, Linked;
      if head == null {
        return false;
      }
      var ptr := which.ptr;
      if ptr == null {
        return false;
      }
      hide At;
      ghost var before := nodes;
      SeparateIsDistinct(before, freed);
      SeparateAfterDelete(before, freed, k);
      LinkOut(ptr, before, k);
      size := size - 1;
      EndsAfterDelete(before, k);
      LinkedAfterDelete(before, k);
      freed := freed + [ptr];
      nodes := before[..k] + before[k + 1..];
      return true;
    }

    method PopFront() returns (ok: bool)
      requires Valid()
      modifies this, nodes`prev, nodes`next
      ensures Valid() && (ok <==> old(nodes) != [])
      ensures nodes == if ok then old(nodes)[1..] else old(nodes)
      ensures freed == if ok then old(freed) + [old(nodes)[0]] else old(freed)
    {
      hide Separate, Linked;
      var begin := Begin();
      ok := PopOne(begin, 0);
    }

    /** pop_back. On an empty list null is dereferenced before anything changes. */
    method PopBack() returns (ok: bool)
      requires Valid()
      modifies this, nodes`prev, nodes`next
      ensures Valid() && (ok <==> old(nodes) != [])
      ensures !ok ==> nodes == old(nodes) && freed == old(freed)
      ensures ok ==> nodes == old(nodes)[..|old(nodes)| - 1] && freed == old(freed) + [old(nodes)[|old(nodes)| - 1]]
    {
      hide Separate, Linked;
      var end := End();
      var last := Retreat(end, |nodes|);
      if last.None? {
        return false;
      }
      ok := PopOne(last.value, |nodes| - 1);
    }

    /** Steps past node k, then deletes it. */
    method PopAndAdvance(iter: Iterator<T, E>, ghost k: nat) returns (r: Iterator<T, E>)
      requires Valid() && k < |nodes| && iter.ptr == nodes[k]
      modifies this, nodes`prev, nodes`next
      ensures Valid() && r.ptr == At(old(nodes), k + 1)
      ensures nodes == old(nodes)[..k] + old(nodes)[k + 1..] && freed == old(freed) + [old(nodes)[k]]
    {
      hide Linked, Separate, Distinct;
      r := Advance(iter, k);
      var _ := PopOne(iter, k);
    }

    /** Deletes the nodes from position lo up to but not including position hi, stepping past each before deleting
        it. */
    method PopSome(from: Iterator<T, E>, to: Iterator<T, E>, ghost lo: nat, ghost hi: nat)
      requires Valid() && lo <= hi <= |nodes| && from.ptr == At(nodes, lo) && to.ptr == At(nodes, hi)
      modifies this, nodes`prev, nodes`next
      ensures Valid()
      ensures nodes == old(nodes)[..lo] + old(nodes)[hi..] && freed == old(freed) + old(nodes)[lo..hi]
    {
      hide Linked, Separate, Distinct, At;
      hide Valid;
      ghost var before, freedBefore := nodes, freed;
      ValidIsDistinct();
      var iter := from;
      ghost var j := lo;
      while iter.ptr != to.ptr
        invariant lo <= j <= hi
        invariant Valid() && nodes == before[..lo] + before[j..] && freed == freedBefore + before[lo..j]
        invariant iter.ptr == At(before, j)
        decreases hi - j
      {
        AtIsInjective(before, j, hi);
        DeleteNext(before, lo, j);
        iter := PopAndAdvance(iter, lo);
        assert freedBefore + before[lo..j] + [before[j]] == freedBefore + before[lo..j + 1];
        j := j + 1;
      }
      AtIsInjective(before, j, hi);
    }

    /** The destructor: every node is deleted once, in order, and never looked at again. */
    method Destroy()
      requires Valid()
      modifies this
      ensures freed == old(freed) + old(nodes) && Distinct(freed)
    {
      hide Separate, Distinct, Linked, At;
      ghost var before, ns := freed, nodes;
      SeparateThenAll(ns, before);
      var begin := Begin();
      var iter := begin.ptr;
      ghost var j := 0;
      while iter != null
        invariant 0 <= j <= |ns| && Linked(ns)
        invariant iter == At(ns, j)
        invariant freed == before + ns[..j]
        decreases |ns| - j
      {
        NextOf(ns, j);
        assert ns[j] !in before + ns[..j];
        assert iter !in freed;
        var toRelease := iter;
        iter := iter.next;
        freed := freed + [toRelease];
        assert before + ns[..j] + [ns[j]] == before + ns[..j + 1];
        j := j + 1;
      }
      EndOf(ns, j);
      assert ns[..j] == ns;
    }
  }
}
