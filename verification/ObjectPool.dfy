/** The fixed-size object pool: a monitor over the traceable list. The class follows the program; the value type Pool
    is what one lock-protected operation does to it, and the lemmas speak of every run of such operations. */
module ObjectPool {
  import opened Collections
  import opened TraceableList

  /** What the mutex protects: the buffer's objects in order, the free list, the objects lent out, and the flag that
      lets a waiting borrower go on. */
  datatype Pool<N> = Pool(buffer: seq<N>, free: seq<N>, lent: set<N>, ready: bool)

  ghost predicate Sound<N>(p: Pool<N>, maxSize: nat)
  {
    && Distinct(p.buffer) && Distinct(p.free) && |p.buffer| <= maxSize
    && (forall x | x in p.buffer :: x in p.free || x in p.lent)
    && (forall x | x in p.free :: x in p.buffer && x !in p.lent)
    && (forall x | x in p.lent :: x in p.buffer)
    && (p.ready ==> p.free != [])
  }

  /** A new object is appended to the buffer and to the free list. */
  function Grown<N>(p: Pool<N>, x: N): Pool<N> { p.(buffer := p.buffer + [x], free := p.free + [x]) }

  function Taken<N>(p: Pool<N>): Pool<N>
    requires p.free != []
  {
    p.(free := p.free[1..], lent := p.lent + {p.free[0]}, ready := false)
  }

  /** do_try_borrow_one; x is the object that is constructed if one is needed. */
  function Borrowed<N>(p: Pool<N>, maxSize: nat, x: N): (Pool<N>, Option<N>)
  {
    if p.free != [] then (Taken(p), Some(p.free[0]))
    else if |p.buffer| < maxSize then (Taken(Grown(p, x)), Some(x))
    else (p, None)
  }

  function Released<N>(p: Pool<N>, x: N): Pool<N>
  {
    p.(free := [x] + p.free, lent := p.lent - {x}, ready := true)
  }

  lemma GrownIsSound<N>(p: Pool<N>, maxSize: nat, x: N)
    requires Sound(p, maxSize) && |p.buffer| < maxSize && x !in p.buffer
    ensures Sound(Grown(p, x), maxSize)
  {}

  lemma TakenIsSound<N>(p: Pool<N>, maxSize: nat)
    requires Sound(p, maxSize) && p.free != []
    ensures Sound(Taken(p), maxSize) && p.free[0] !in p.lent
  {
    var q := Taken(p);
    assert p.free == [p.free[0]] + q.free;
    forall i | 0 <= i < |q.free| ensures q.free[i] != p.free[0] { assert q.free[i] == p.free[i + 1]; }
  }

  lemma ReleasedIsSound<N>(p: Pool<N>, maxSize: nat, x: N)
    requires Sound(p, maxSize) && x in p.lent
    ensures Sound(Released(p, x), maxSize)
  {
    var q := Released(p, x);
    assert q.free[0] == x;
    assert forall y | y in p.free :: y in q.free;
  }

  /** Operations under the lock: a borrow attempt, a borrow after the wait was let through by the flag, a release of a
      lent object. The fresh object is the one the attempt may construct. */
  datatype Event<N> = TryBorrow(x: N) | BorrowAfterWait(x: N) | Release(x: N)

  predicate Allowed<N(==)>(p: Pool<N>, e: Event<N>)
  {
    match e
    case TryBorrow(x) => x !in p.buffer
    case BorrowAfterWait(x) => x !in p.buffer && p.ready
    case Release(x) => x in p.lent
  }

  function After<N>(p: Pool<N>, e: Event<N>, maxSize: nat): Pool<N>
  {
    match e
    case TryBorrow(x) => Borrowed(p, maxSize, x).0
    case BorrowAfterWait(x) => Borrowed(p, maxSize, x).0
    case Release(x) => Released(p, x)
  }

  ghost predicate Runs<N>(p: Pool<N>, events: seq<Event<N>>, p': Pool<N>, maxSize: nat)
    decreases |events|
  {
    if events == [] then p' == p
    else Allowed(p, events[0]) && Runs(After(p, events[0], maxSize), events[1..], p', maxSize)
  }

  lemma StepIsSound<N>(p: Pool<N>, e: Event<N>, maxSize: nat)
    requires Sound(p, maxSize) && Allowed(p, e)
    ensures Sound(After(p, e, maxSize), maxSize)
  {
    match e
    case Release(x) => ReleasedIsSound(p, maxSize, x);
    case _ =>
      if p.free != [] {
        TakenIsSound(p, maxSize);
      } else if |p.buffer| < maxSize {
        GrownIsSound(p, maxSize, e.x);
        TakenIsSound(Grown(p, e.x), maxSize);
      }
  }

  /** Over every run: free and lent objects partition the buffer, which stays within its bound; an object handed out was
      not lent; and a borrower let through by the flag always gets an object, so its failure branch is dead. */
  lemma {:induction false} EveryRunIsSound<N>(p: Pool<N>, events: seq<Event<N>>, p': Pool<N>, maxSize: nat, x: N)
    requires Sound(p, maxSize) && Runs(p, events, p', maxSize) && x !in p'.buffer
    ensures Sound(p', maxSize)
    ensures
      var r := Borrowed(p', maxSize, x).1;
      && (r.Some? ==> r.value !in p'.lent)
      && (p'.ready ==> r.Some?)
      && (r.None? <==> p'.free == [] && |p'.buffer| == maxSize)
    decreases |events|
  {
    if events != [] {
      StepIsSound(p, events[0], maxSize);
      EveryRunIsSound(After(p, events[0], maxSize), events[1..], p', maxSize, x);
    }
  }

  /** The object released last is lent next, and a new one is built only when none is free. */
  lemma LastReleasedFirst<N>(p: Pool<N>, maxSize: nat, x: N, y: N)
    ensures Borrowed(Released(p, x), maxSize, y).1 == Some(x)
    ensures |Borrowed(p, maxSize, y).0.buffer| == |p.buffer| + (if p.free == [] && |p.buffer| < maxSize then 1 else 0)
    ensures p.free == [] && |p.buffer| < maxSize ==> Borrowed(p, maxSize, y).1 == Some(y)
  {}

  // When the flag tells the truth

  /** The last operation of a run that changed the pool, with the pool it changed. */
  datatype Change<N> = Change(before: Pool<N>, event: Event<N>)

  ghost function LastChange<N>(p: Pool<N>, events: seq<Event<N>>, maxSize: nat): Option<Change<N>>
    decreases |events|
  {
    if events == [] then None
    else
      var q := After(p, events[0], maxSize);
      var later := LastChange(q, events[1..], maxSize);
      if later.Some? then later else if q != p then Some(Change(p, events[0])) else None
  }

  /** An object is free and the flag does not show it. */
  predicate Hidden<N>(p: Pool<N>) { p.free != [] && !p.ready }

  /** What the last change, if there was one, says about the flag and the free list. */
  ghost predicate FlagFollows<N>(last: Option<Change<N>>, p: Pool<N>, start: Pool<N>)
  {
    if last.None? then p == start
    else
      && (p.ready <==> last.value.event.Release?)
      && (Hidden(p) <==> !last.value.event.Release? && |last.value.before.free| >= 2)
  }

  lemma StepFlag<N>(p: Pool<N>, e: Event<N>, maxSize: nat)
    requires Allowed(p, e)
    ensures var q := After(p, e, maxSize); FlagFollows(if q != p then Some(Change(p, e)) else None, q, p)
  {
    var q := After(p, e, maxSize);
    if q != p && !e.Release? && p.free == [] {
      assert Grown(p, e.x).free == [e.x];
    }
  }

  lemma UnchangedFlag<N>(p: Pool<N>, q: Pool<N>, events: seq<Event<N>>, p': Pool<N>, maxSize: nat)
    requires events != [] && q == After(p, events[0], maxSize)
    requires FlagFollows(if q != p then Some(Change(p, events[0])) else None, q, p)
    requires FlagFollows(LastChange(q, events[1..], maxSize), p', q)
    ensures FlagFollows(LastChange(p, events, maxSize), p', p)
  {}

  lemma {:induction false} RunFlag<N>(p: Pool<N>, events: seq<Event<N>>, p': Pool<N>, maxSize: nat)
    requires Runs(p, events, p', maxSize)
    ensures FlagFollows(LastChange(p, events, maxSize), p', p)
    decreases |events|
  {
    if events != [] {
      hide Allowed, After, FlagFollows;
      var q := After(p, events[0], maxSize);
      StepFlag(p, events[0], maxSize);
      RunFlag(q, events[1..], p', maxSize);
      assert FlagFollows(LastChange(p, events, maxSize), p', p) by { UnchangedFlag(p, q, events, p', maxSize); }
    }
  }

  /** Over every run from the empty pool: the flag is on if and only if the last operation that changed the pool was a
      release; and a free object is hidden if and only if that was a borrow which found at least two free objects. */
  lemma FlagIsLastRelease<N>(events: seq<Event<N>>, p: Pool<N>, maxSize: nat)
    requires Runs(Pool([], [], {}, false), events, p, maxSize)
    ensures var last := LastChange(Pool([], [], {}, false), events, maxSize);
            && (p.ready <==> last.Some? && last.value.event.Release?)
            && (Hidden(p) <==> last.Some? && !last.value.event.Release? && |last.value.before.free| >= 2)
  {
    RunFlag(Pool([], [], {}, false), events, p, maxSize);
  }

  /** The flag is cleared by every borrow, so the converse fails: here a free object remains and the flag is off, and a
      borrower that waits at this moment is not let through. */
  lemma FlagCanHideFreeObjects<N>(a: N, b: N, c: N) returns (p: Pool<N>)
    requires a != b && a != c && b != c
    ensures Runs(Pool([], [], {}, false), [TryBorrow(a), TryBorrow(b), Release(a), Release(b), TryBorrow(c)], p, 2)
    ensures Hidden(p)
  {
    var p0 := Pool([], [], {}, false);
    var p1 := After(p0, TryBorrow(a), 2);
    var p2 := After(p1, TryBorrow(b), 2);
    var p3 := After(p2, Release(a), 2);
    var p4 := After(p3, Release(b), 2);
    p := After(p4, TryBorrow(c), 2);
    assert p1.free == [] && p1.buffer == [a] && p2.free == [] && p2.buffer == [a, b] && p2.lent == {a, b};
    assert p3.free == [a] && p4.free == [b, a] && p.free == [a];
    var e := [TryBorrow(a), TryBorrow(b), Release(a), Release(b), TryBorrow(c)];
    assert e[1..] == [TryBorrow(b), Release(a), Release(b), TryBorrow(c)];
    assert e[1..][1..] == [Release(a), Release(b), TryBorrow(c)] && e[1..][1..][1..] == [Release(b), TryBorrow(c)];
    assert Runs(p4, [TryBorrow(c)], p, 2) by { assert Runs(p, [], p, 2); }
    assert Runs(p3, e[1..][1..][1..], p, 2);
    assert Runs(p2, e[1..][1..], p, 2);
    assert Runs(p1, e[1..], p, 2);
  }

  lemma SizeOf<T>(l: List<T, bool>)
    requires l.Valid()
    ensures l.size == |l.nodes|
  {}

  class FixedObjectPool<T> {
    const maxSize: nat
    /** What the bound constructor arguments build. */
    const template: T
    const buffer: List<T, bool>
    var freeList: seq<Node<T, bool>>
    var newObjReady: bool
    ghost var lent: set<Node<T, bool>>

    ghost function State(): Pool<Node<T, bool>>
      reads this, buffer
    {
      Pool(buffer.nodes, freeList, lent, newObjReady)
    }

    /** The flag in each node says whether it is free. */
    ghost predicate FlagsAgree()
      reads this, buffer, buffer.nodes
    {
      forall n | n in buffer.nodes :: n.extraInfo <==> n in freeList
    }

    /** Everything is in order, with at most `bound` objects. */
    ghost predicate Within(bound: nat)
      reads this, buffer, buffer.nodes
    {
      buffer.Valid() && Sound(State(), bound) && FlagsAgree()
    }

    ghost predicate Valid()
      reads this, buffer, buffer.nodes
    {
      Within(maxSize)
    }

    constructor (maxSize: nat, template: T)
      ensures Valid() && this.maxSize == maxSize && State() == Pool([], [], {}, false) && fresh(buffer)
    {
      this.maxSize, this.template := maxSize, template;
      this.buffer := new List();
      freeList, newObjReady, lent := [], false, {};
    }

    method NewFreeObject(ghost bound: nat) returns (ghost node: Node<T, bool>)
      requires Within(bound) && |buffer.nodes| < bound
      modifies this`freeList, buffer, buffer.nodes`prev, buffer.nodes`next
      ensures Within(bound) && fresh(node)
      ensures State() == Grown(old(State()), node)
    {
      hide List.Valid, Sound;
      ghost var before := State();
      var end := buffer.End();
      node := buffer.EmplaceOne(end, true, template, |buffer.nodes|);
      assert buffer.nodes == before.buffer + [node];
      end := buffer.End();
      var last := buffer.Retreat(end, |buffer.nodes|);
      freeList := freeList + [last.value.ptr];
      GrownIsSound(before, bound, node);
    }

    /** Adds as many free objects as the pool may hold, whatever it holds already. So the bound is respected exactly
        when the pool was empty, or may hold nothing. */
    method FillFull() returns (ghost made: seq<Node<T, bool>>)
      requires Valid()
      modifies this`freeList, buffer, buffer.nodes`prev, buffer.nodes`next
      ensures |made| == maxSize && forall j | 0 <= j < |made| :: fresh(made[j])
      ensures State() == old(State()).(buffer := old(buffer.nodes) + made, free := old(freeList) + made)
      ensures Within(|buffer.nodes|)
      ensures Valid() <==> old(buffer.nodes) == [] || maxSize == 0
    {
      hide List.Valid, Sound, FlagsAgree;
      ghost var before, all := State(), |buffer.nodes| + maxSize;
      made := [];
      WithinMore(maxSize, all);
      for i := 0 to maxSize
        invariant |made| == i && forall j | 0 <= j < |made| :: fresh(made[j])
        invariant buffer.nodes == before.buffer + made
        invariant State() == before.(buffer := before.buffer + made, free := before.free + made)
        invariant Within(all)
      {
        ghost var node := NewFreeObject(all);
        made := made + [node];
      }
      WithinSize(all);
    }

    lemma WithinMore(bound: nat, more: nat)
      requires Within(bound) && bound <= more
      ensures Within(more)
    {}

    lemma WithinSize(bound: nat)
      requires Within(bound)
      ensures Within(|buffer.nodes|) && (Valid() <==> |buffer.nodes| <= maxSize)
    {}

    /** Lends the first free object. */
    method TakeFree() returns (result: Node<T, bool>)
      requires Valid() && freeList != []
      modifies this`freeList, this`newObjReady, this`lent, freeList`extraInfo
      ensures Valid() && result == old(freeList)[0] && State() == Taken(old(State()))
    {
      hide List.Valid;
      TakenIsSound(State(), maxSize);
      result := freeList[0];
      freeList := freeList[1..];
      result.extraInfo := false;
      newObjReady := false;
      lent := lent + {result};
    }

    /** The body of every borrow, run with the lock held. */
    method DoTryBorrowOne() returns (result: Node?<T, bool>, ghost made: Node?<T, bool>)
      requires Valid()
      modifies this`freeList, this`newObjReady, this`lent, buffer, buffer.nodes
      ensures Valid()
      ensures result == null ==> old(freeList) == [] && |old(buffer.nodes)| == maxSize && State() == old(State())
      ensures result != null && made == null ==>
                old(freeList) != [] && result == old(freeList)[0] && State() == Taken(old(State()))
      ensures made != null ==>
                fresh(made) && old(freeList) == [] && result == made && State() == Taken(Grown(old(State()), made))
    {
      hide List.Valid, FlagsAgree;
      made := null;
      assert forall n | n in State().free :: n in State().buffer;
      assert forall j | 0 <= j < |freeList| :: freeList[j] in buffer.nodes;
      if |freeList| > 0 {
        result := TakeFree();
        return;
      }
      SizeOf(buffer);
      if buffer.size < maxSize {
        made := NewFreeObject(maxSize);
        assert freeList == [made];
        result := TakeFree();
        return;
      }
      result := null;
    }

    /** try_borrow_one, and the first attempt of borrow_one: null exactly when every object of a full pool is lent. */
    method TryBorrowOne() returns (result: Node?<T, bool>)
      requires Valid()
      modifies this`freeList, this`newObjReady, this`lent, buffer, buffer.nodes
      ensures Valid()
      ensures result == null <==> old(freeList) == [] && |old(buffer.nodes)| == maxSize
      ensures result == null ==> State() == old(State())
      ensures result != null ==> result !in old(lent) && lent == old(lent) + {result}
      ensures old(freeList) != [] ==> result == old(freeList)[0] && State() == Taken(old(State()))
      ensures result != null && old(freeList) == [] ==>
                fresh(result) && State() == Taken(Grown(old(State()), result))
    {
      hide List.Valid, FlagsAgree;
      ghost var p := State();
      ghost var made;
      result, made := DoTryBorrowOne();
      if p.free != [] { TakenIsSound(p, maxSize); }
    }

    /** The rest of borrow_one, once the wait has seen the flag: the error after it cannot happen. */
    method BorrowAfterWaiting() returns (result: Node?<T, bool>)
      requires Valid() && newObjReady
      modifies this`freeList, this`newObjReady, this`lent, buffer, buffer.nodes
      ensures Valid() && result != null && result !in old(lent) && lent == old(lent) + {result}
      ensures old(freeList) != [] && result == old(freeList)[0] && State() == Taken(old(State()))
    {
      hide List.Valid, FlagsAgree;
      ghost var p := State();
      TakenIsSound(p, maxSize);
      ghost var made;
      result, made := DoTryBorrowOne();
    }

    method ReleaseOne(which: Node<T, bool>)
      requires Valid() && which in lent
      modifies this`freeList, this`newObjReady, this`lent, which`extraInfo
      ensures Valid() && State() == Released(old(State()), which)
    {
      hide List.Valid;
      ReleasedIsSound(State(), maxSize, which);
      hide Sound;
      freeList := [which] + freeList;
      which.extraInfo := true;
      lent := lent - {which};
      newObjReady := true;
    }
  }
}
