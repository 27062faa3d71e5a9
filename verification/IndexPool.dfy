/** The pool of ObjectIndexPool.hpp: indices come from a counter until it runs out, then from a list
    of returned indices. That list starts out holding the largest index, which the counter hands out too.
 */
module IndexPools {
  import opened Bytes

  const MAX_NUM: nat := 10000

  const INVALID_INDEX: nat := 0xffff_ffff

  datatype Pool<T> = Pool(maxIndex: nat, slots: map<nat, T>, objects: seq<T>, invalidIndexes: seq<nat>)

  function EmptyPool<T>(): Pool<T> {
    Pool(0, map[], [], [MAX_NUM])
  }

  function AddObject<T>(p: Pool<T>, x: T): (Pool<T>, nat) {
    if p.maxIndex <= MAX_NUM then
      (Pool(p.maxIndex + 1, p.slots[p.maxIndex := x], p.objects + [x], p.invalidIndexes), p.maxIndex)
    else if p.invalidIndexes != [] then
      var i := p.invalidIndexes[0];
      (Pool(p.maxIndex, p.slots[i := x], p.objects + [x], p.invalidIndexes[1..]), i)
    else (p, INVALID_INDEX)
  }

  /** `std::list::remove` takes out every equal element. */
  function Without<T(==)>(s: seq<T>, x: T): seq<T> {
    if s == [] then [] else (if s[0] == x then [] else [s[0]]) + Without(s[1..], x)
  }

  function RemoveObject<T(==)>(p: Pool<T>, index: nat): Pool<T> {
    if index > MAX_NUM then p
    else
      Pool(p.maxIndex, p.slots - {index},
           if index in p.slots then Without(p.objects, p.slots[index]) else p.objects,
           p.invalidIndexes + [index])
  }

  /** The source asserts that the index lies in the array; the caller has to see to it. */
  function GetObject<T>(p: Pool<T>, index: nat): Option<T>
    requires index <= MAX_NUM
  {
    if index in p.slots then Some(p.slots[index]) else None
  }

  ghost predicate NoDuplicates<T(!new)>(s: seq<T>) {
    forall i, j :: 0 <= i < j < |s| ==> s[i] != s[j]
  }

  lemma {:induction false} WithoutMembers<T(!new)>(s: seq<T>, x: T)
    ensures forall y :: y in Without(s, x) <==> y in s && y != x
    ensures NoDuplicates(s) ==> NoDuplicates(Without(s, x))
  {
    if s != [] {
      WithoutMembers(s[1..], x);
      var rest := Without(s[1..], x);
      assert forall y :: y in s <==> y == s[0] || y in s[1..];
      if NoDuplicates(s) {
        assert s[0] !in s[1..];
        assert s[0] !in rest;
      }
    }
  }

  /// What every pool keeps

  /** Slots lie below the counter and hold distinct objects of the list. */
  ghost predicate Sound<T(!new)>(p: Pool<T>) {
    && p.maxIndex <= MAX_NUM + 1
    && (forall i :: i in p.slots ==> i < p.maxIndex && p.slots[i] in p.objects)
    && (forall i, j :: i in p.slots && j in p.slots && i != j ==> p.slots[i] != p.slots[j])
    && NoDuplicates(p.objects)
    && (forall i :: 0 <= i < |p.invalidIndexes| ==> p.invalidIndexes[i] <= MAX_NUM)
  }

  ghost predicate InSlot<T(!new)>(p: Pool<T>, x: T) {
    exists i :: i in p.slots && p.slots[i] == x
  }

  /** Every object of the list can be reached by an index. */
  ghost predicate NoOrphans<T(!new)>(p: Pool<T>) {
    forall x :: x in p.objects ==> InSlot(p, x)
  }

  /** Every addition keeps the pool sound. It turns the object away if and only if the counter and the
      list of returned indices are both used up; otherwise the object takes over the index, and exactly
      an earlier object in that slot becomes unreachable. */
  lemma AddKeepsSound<T(!new)>(p: Pool<T>, x: T)
    requires Sound(p) && x !in p.objects
    ensures
      var (q, index) := AddObject(p, x);
      && Sound(q)
      && (index == INVALID_INDEX <==> p.maxIndex > MAX_NUM && p.invalidIndexes == [])
      && (index == INVALID_INDEX ==> q == p)
      && (index != INVALID_INDEX ==>
            && index <= MAX_NUM && q.slots == p.slots[index := x] && q.objects == p.objects + [x]
            && (NoOrphans(q) <==> NoOrphans(p) && index !in p.slots))
      && (p.maxIndex <= MAX_NUM ==> index == p.maxIndex && index !in p.slots && q.maxIndex == p.maxIndex + 1)
  {
    var (q, index) := AddObject(p, x);
    if index != INVALID_INDEX {
      OrphansAfterAdd(p, q, index, x);
    }
  }

  lemma OrphansAfterAdd<T(!new)>(p: Pool<T>, q: Pool<T>, index: nat, x: T)
    requires Sound(p) && x !in p.objects && q.slots == p.slots[index := x] && q.objects == p.objects + [x]
    ensures NoOrphans(q) <==> NoOrphans(p) && index !in p.slots
  {
    assert forall y :: y in q.objects <==> y in p.objects || y == x;
    assert q.slots[index] == x;
    if index in p.slots {
      var y := p.slots[index];
      assert y in q.objects && !InSlot(q, y);
    } else if NoOrphans(q) {
      forall y | y in p.objects ensures InSlot(p, y) {
        assert InSlot(q, y);
        var i :| i in q.slots && q.slots[i] == y;
        assert p.slots[i] == y;
      }
    } else if NoOrphans(p) {
      forall y | y in q.objects ensures InSlot(q, y) {
        if y != x {
          var i :| i in p.slots && p.slots[i] == y;
          assert q.slots[i] == y;
        }
      }
    }
  }

  /** Every removal keeps the pool sound, empties the slot and takes out exactly its object. */
  lemma RemoveKeepsSound<T(!new)>(p: Pool<T>, index: nat)
    requires Sound(p)
    ensures
      var q := RemoveObject(p, index);
      && Sound(q) && q.slots == p.slots - {index} && q.maxIndex == p.maxIndex
      && (forall x :: x in q.objects <==> x in p.objects && !(index in p.slots && p.slots[index] == x))
      && (NoOrphans(p) ==> NoOrphans(q))
  {
    var q := RemoveObject(p, index);
    if index in p.slots {
      WithoutMembers(p.objects, p.slots[index]);
      if NoOrphans(p) {
        forall x | x in q.objects ensures InSlot(q, x) {
          assert InSlot(p, x);
          var i :| i in p.slots && p.slots[i] == x;
          assert q.slots[i] == x;
        }
      }
    } else {
      assert p.slots - {index} == p.slots;
      assert NoOrphans(p) ==> forall x :: x in q.objects ==> InSlot(p, x) && InSlot(q, x);
    }
  }

  /// Handing out one index after the other

  function AddAll<T>(p: Pool<T>, xs: seq<T>): (Pool<T>, seq<nat>) {
    if xs == [] then (p, [])
    else
      var (q, indexes) := AddAll(p, xs[..|xs| - 1]);
      var (r, index) := AddObject(q, xs[|xs| - 1]);
      (r, indexes + [index])
  }

  lemma {:induction false} CountingUp<T>(xs: seq<T>)
    requires |xs| <= MAX_NUM + 1
    ensures
      var (p, indexes) := AddAll(EmptyPool(), xs);
      && p.maxIndex == |xs| && p.invalidIndexes == [MAX_NUM]
      && |indexes| == |xs| && forall i :: 0 <= i < |xs| ==> indexes[i] == i
    decreases |xs|
  {
    if xs != [] {
      CountingUp(xs[..|xs| - 1]);
    }
  }

  lemma {:induction false} AddAllPrefix<T>(p: Pool<T>, xs: seq<T>, n: nat)
    requires n <= |xs|
    ensures |AddAll(p, xs).1| == |xs| && AddAll(p, xs).1[..n] == AddAll(p, xs[..n]).1
    decreases |xs|
  {
    if xs != [] {
      var front := xs[..|xs| - 1];
      AddAllPrefix(p, front, if n < |xs| then n else |front|);
      if n < |xs| {
        assert front[..n] == xs[..n];
      } else {
        assert xs[..n] == xs;
      }
    }
  }

  lemma LargestIndexTwice<T>(xs: seq<T>)
    requires |xs| == MAX_NUM + 2
    ensures
      var indexes := AddAll(EmptyPool(), xs).1;
      |indexes| == |xs| && indexes[MAX_NUM] == indexes[MAX_NUM + 1] == MAX_NUM
  {
    var first := xs[..MAX_NUM + 1];
    CountingUp(first);
    assert xs[..|xs| - 1] == first;
  }

  /** Without removals the pool hands out distinct indices for exactly its first 10001 objects: the
      10002nd gets the index of the 10001st. */
  lemma DistinctUpToCapacity<T>(xs: seq<T>)
    ensures NoDuplicates(AddAll(EmptyPool(), xs).1) <==> |xs| <= 10001
  {
    hide AddAll;
    if |xs| <= MAX_NUM + 1 {
      CountingUp(xs);
    } else {
      LargestIndexTwice(xs[..MAX_NUM + 2]);
      AddAllPrefix(EmptyPool(), xs, MAX_NUM + 2);
      var indexes := AddAll(EmptyPool(), xs).1;
      assert indexes[..MAX_NUM + 2][MAX_NUM] == indexes[MAX_NUM];
      assert indexes[..MAX_NUM + 2][MAX_NUM + 1] == indexes[MAX_NUM + 1];
    }
  }

  /** Once the counter has run out, indices are handed out in the order of the list, and then none. */
  lemma {:induction false} ListInOrder<T>(p: Pool<T>, xs: seq<T>)
    requires p.maxIndex > MAX_NUM
    ensures
      var (q, indexes) := AddAll(p, xs);
      && q.maxIndex == p.maxIndex && |indexes| == |xs|
      && q.invalidIndexes == p.invalidIndexes[Min(|xs|, |p.invalidIndexes|)..]
      && forall i :: 0 <= i < |xs| ==>
           indexes[i] == if i < |p.invalidIndexes| then p.invalidIndexes[i] else INVALID_INDEX
    decreases |xs|
  {
    if xs != [] {
      ListInOrder(p, xs[..|xs| - 1]);
    }
  }

  /** An index that is given back comes back: it is handed out again right after the ones that were given
      back before it. */
  lemma ReturnedIndexComesBack<T>(p: Pool<T>, index: nat, xs: seq<T>)
    requires p.maxIndex > MAX_NUM && index <= 10000 && |xs| == |p.invalidIndexes| + 1
    ensures
      var indexes := AddAll(RemoveObject(p, index), xs).1;
      |indexes| == |xs| && indexes[|xs| - 1] == index
  {
    ListInOrder(RemoveObject(p, index), xs);
  }
}
