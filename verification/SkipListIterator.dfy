/**
  The skip list's iterator, and what whole scans and whole sequences of insertions yield.
 */
module SkipListIterators {
  import opened Order
  import opened SortedKeys
  import opened SkipLists

  class Iterator<K(!new)> {
    const list: SkipList<K>
    var node: Node?<K>
    /** The number of the key stood on; the number of keys when the iterator is not valid. */
    ghost var pos: nat

    ghost predicate Valid()
      reads this, list, list.nodes, list.rnd
    {
      && list.Valid() && pos <= |list.Keys()|
      && (if pos < |list.Keys()| then node != null && list.IsNumber(pos + 1, node) else node == null)
    }

    constructor (l: SkipList<K>)
      requires l.Valid()
      ensures Valid() && list == l && pos == |l.Keys()|
    {
      list := l;
      node := null;
      pos := |l.Keys()|;
    }

    lemma KeysAscend()
      requires Valid()
      ensures list.Valid() && Ascending(list.cmp, list.Keys())
    {
      hide SkipList.Valid, SkipList.Keys, SkipList.IsNumber;
      list.KeysAscend();
    }

    method IsValid() returns (b: bool)
      requires Valid()
      ensures b <==> pos < |list.Keys()|
    {
      b := node != null;
    }

    method Key() returns (k: K)
      requires Valid() && pos < |list.Keys()|
      ensures k == list.Keys()[pos]
    {
      hide SkipList.Valid, SkipList.Keys, SkipList.IsNumber;
      list.NumberedKey(pos, node);
      k := node.key.value;
    }

    method Next()
      requires Valid() && pos < |list.Keys()|
      modifies this
      ensures Valid() && pos == old(pos) + 1
    {
      hide SkipList.Valid, SkipList.Keys, SkipList.IsNumber;
      list.NumberedNext(pos + 1, node);
      node := node.Next(0);
      pos := pos + 1;
    }

    /** Before the first key the iterator becomes invalid. */
    method Prev()
      requires Valid() && pos < |list.Keys()|
      modifies this
      ensures Valid() && pos == if old(pos) == 0 then |list.Keys()| else old(pos) - 1
    {
      hide SkipList.Valid, SkipList.Keys, SkipList.IsNumber;
      list.NumberedKey(pos, node);
      list.KeysAscend();
      LowerBoundOfMember(list.cmp, list.Keys(), pos);
      var x := list.FindLessThan(node.key.value);
      StepBack(x, pos);
    }

    method Seek(target: K)
      requires Valid()
      modifies this
      ensures Valid() && pos == LowerBound(list.cmp, list.Keys(), target)
    {
      hide SkipList.Valid, SkipList.Keys, SkipList.IsNumber, LowerBound;
      var x, stops := list.FindGreaterOrEqual(target, null);
      node := x;
      pos := LowerBound(list.cmp, list.Keys(), target);
    }

    method SeekToFirst()
      requires Valid()
      modifies this
      ensures Valid() && pos == 0
    {
      hide SkipList.Valid, SkipList.Keys, SkipList.IsNumber;
      list.HeadNumber();
      list.NumberedNext(0, list.head);
      node := list.head.Next(0);
      pos := 0;
    }

    method SeekToLast()
      requires Valid()
      modifies this
      ensures Valid() && pos == if list.Keys() == [] then 0 else |list.Keys()| - 1
    {
      hide SkipList.Valid, SkipList.Keys, SkipList.IsNumber;
      var x := list.FindLast();
      StepBack(x, |list.Keys()|);
    }

    /** The object before number `i + 1` is stood on, unless it is the head. */
    method StepBack(x: Node<K>, ghost i: nat)
      requires Valid() && list.IsNumber(i, x)
      modifies this
      ensures Valid() && pos == if i == 0 then |list.Keys()| else i - 1
    {
      hide SkipList.Valid, SkipList.Keys, SkipList.IsNumber;
      list.OnlyHeadIsZero(i, x);
      node := x;
      pos := if i == 0 then |list.Keys()| else i - 1;
      if node == list.head {
        node := null;
      }
    }
  }

  lemma LowerBoundOfMember<K(!new)>(cmp: (K, K) -> int, ks: seq<K>, i: nat)
    requires TotalPreorder(cmp) && Ascending(cmp, ks) && i < |ks|
    ensures LowerBound(cmp, ks, ks[i]) == i
  {
    Flip(cmp, ks[i], ks[i]);
    LowerBoundIs(cmp, ks, ks[i], i);
  }

  /** `prev` undoes `next`, as long as `next` did not run off the end. */
  method NextThenPrev<K(!new)>(it: Iterator<K>)
    requires it.Valid() && it.pos + 1 < |it.list.Keys()|
    modifies it
    ensures it.Valid() && it.pos == old(it.pos) && it.node == old(it.node)
  {
    hide SkipList.Valid, SkipList.Keys, SkipList.IsNumber;
    it.Next();
    it.Prev();
    it.list.SameNumber(it.pos + 1, it.node, old(it.node));
  }

  method ForwardScan<K(!new)>(list: SkipList<K>) returns (ks: seq<K>)
    requires list.Valid()
    ensures ks == list.Keys()
  {
    hide *;
    ks := [];
    var it := new Iterator(list);
    it.SeekToFirst();
    var more := it.IsValid();
    while more
      invariant it.Valid() && it.list == list && list.Valid() && fresh(it)
      invariant it.pos <= |list.Keys()| && ks == list.Keys()[..it.pos] && (more <==> it.pos < |list.Keys()|)
      decreases |list.Keys()| - it.pos
    {
      var k := it.Key();
      ks := ks + [k];
      it.Next();
      more := it.IsValid();
    }
  }

  lemma ReverseOne<K>(ks: seq<K>, left: nat)
    requires 0 < left <= |ks|
    ensures Reverse(ks[..left]) == [ks[left - 1]] + Reverse(ks[..left - 1])
  {
    assert ks[..left][..left - 1] == ks[..left - 1];
  }

  lemma ReverseNone<K>(ks: seq<K>)
    ensures Reverse(ks[..0]) == [] && ks[..|ks|] == ks
  {
  }

  method BackwardScan<K(!new)>(list: SkipList<K>) returns (ks: seq<K>)
    requires list.Valid()
    ensures ks == Reverse(list.Keys())
  {
    hide *;
    ks := [];
    var it := new Iterator(list);
    it.SeekToLast();
    var more := it.IsValid();
    ghost var left: nat := |list.Keys()|;
    ReverseNone(list.Keys());
    while more
      invariant it.Valid() && it.list == list && list.Valid() && fresh(it)
      invariant left <= |list.Keys()| && (more <==> left > 0)
      invariant it.pos == if left > 0 then left - 1 else |list.Keys()|
      invariant Reverse(list.Keys()) == ks + Reverse(list.Keys()[..left])
      decreases left
    {
      var k := it.Key();
      ReverseOne(list.Keys(), left);
      ks := ks + [k];
      it.Prev();
      left := left - 1;
      more := it.IsValid();
    }
  }

  lemma EmptyInsertAll<K>(cmp: (K, K) -> int, ks: seq<K>)
    ensures InsertAll(cmp, ks[..0]) == []
  {
  }

  lemma NextInsertAll<K(!new)>(cmp: (K, K) -> int, ks: seq<K>, i: nat)
    requires TotalPreorder(cmp) && Distinct(cmp, ks) && i < |ks|
    ensures !SortedKeys.Contains(cmp, InsertAll(cmp, ks[..i]), ks[i])
    ensures InsertAll(cmp, ks[..i + 1]) == InsertSorted(cmp, InsertAll(cmp, ks[..i]), ks[i])
  {
    hide TotalPreorder, InsertSorted;
    InsertAllSorts(cmp, ks[..i]);
    assert ks[..i + 1][..i] == ks[..i];
  }

  /** Any distinct keys, inserted in any order and at whatever heights are drawn. */
  method InsertEach<K(!new)>(cmp: (K, K) -> int, ks: seq<K>) returns (list: SkipList<K>)
    requires TotalPreorder(cmp) && Distinct(cmp, ks)
    ensures fresh(list) && list.Valid() && list.cmp == cmp
    ensures list.Keys() == InsertAll(cmp, ks)
    ensures Ascending(cmp, list.Keys()) && multiset(list.Keys()) == multiset(ks)
  {
    hide SkipList.Valid, SkipList.Keys, SkipList.IsNumber;
    hide TotalPreorder, Ascending, Contains, Distinct, InsertSorted, LowerBound, InsertAll;
    list := new SkipList(cmp);
    EmptyInsertAll(cmp, ks);
    var i := 0;
    while i < |ks|
      invariant 0 <= i <= |ks|
      invariant list.Valid() && list.cmp == cmp && list.Keys() == InsertAll(cmp, ks[..i])
      invariant fresh(list) && fresh(list.rnd) && fresh(list.nodes)
    {
      NextInsertAll(cmp, ks, i);
      list.Insert(ks[i]);
      i := i + 1;
    }
    assert ks[..|ks|] == ks;
    InsertAllSorts(cmp, ks);
  }
}
