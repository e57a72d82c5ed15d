/** An array heap that knows where its elements are: a map gives the position of each. */
module SimpleHeap {
  import opened Options

  /** What `Compare` must be: a strict weak order. */
  ghost predicate StrictWeak<T(!new)>(less: (T, T) -> bool) {
    && (forall x: T {:trigger less(x, x)} :: !less(x, x))
    && (forall x: T, y: T, z: T {:trigger less(x, y), less(y, z)} :: less(x, y) && less(y, z) ==> less(x, z))
    && (forall x: T, y: T, z: T {:trigger less(x, y), less(y, z)} :: !less(x, y) && !less(y, z) ==> !less(x, z))
  }

  function Parent(i: nat): (p: nat)
    requires i > 0
    ensures p < i && (i == 2 * p + 1 || i == 2 * p + 2)
  {
    (i - 1) / 2
  }

  /** The map gives every element its position, and nothing else. */
  ghost predicate Indexed<T>(store: seq<T>, index: map<T, nat>) {
    && (forall i {:trigger store[i]} | 0 <= i < |store| :: store[i] in index && index[store[i]] == i)
    && (forall x {:trigger index[x]} | x in index :: index[x] < |store| && store[index[x]] == x)
  }

  /** The element at i is not less than its parent. */
  ghost predicate InOrder<T>(less: (T, T) -> bool, store: seq<T>, i: int) {
    0 < i < |store| && !less(store[i], store[Parent(i)])
  }

  ghost predicate Ordered<T>(less: (T, T) -> bool, store: seq<T>) {
    forall i {:trigger InOrder(less, store, i)} | 0 < i < |store| :: InOrder(less, store, i)
  }

  /** In order but perhaps for i and its parent; and what is below i is in order with what is above. */
  ghost predicate OrderedBelow<T>(less: (T, T) -> bool, store: seq<T>, i: nat) {
    && i < |store|
    && (forall k {:trigger InOrder(less, store, k)} | 0 < k < |store| && k != i :: InOrder(less, store, k))
    && (forall k {:trigger OverGap(less, store, i, k)} | 0 < k < |store| && Parent(k) == i && i > 0 :: OverGap(less, store, i, k))
  }

  /** In order but perhaps for i and its children, and for i and its parent. */
  ghost predicate OrderedAround<T>(less: (T, T) -> bool, store: seq<T>, i: nat) {
    && i < |store|
    && (forall k {:trigger InOrder(less, store, k)} | 0 < k < |store| && k != i && Parent(k) != i :: InOrder(less, store, k))
    && (forall k {:trigger OverGap(less, store, i, k)} | 0 < k < |store| && Parent(k) == i && i > 0 :: OverGap(less, store, i, k))
  }

  ghost predicate OverGap<T>(less: (T, T) -> bool, store: seq<T>, i: nat, k: int) {
    0 < i < |store| && 0 < k < |store| && !less(store[k], store[Parent(i)])
  }

  function Swapped<T>(store: seq<T>, x: nat, y: nat): (r: seq<T>)
    requires x < |store| && y < |store|
    ensures |r| == |store| && multiset(r) == multiset(store)
  {
    store[x := store[y]][y := store[x]]
  }

  /** The root is least. */
  lemma {:induction false} RootLeast<T(!new)>(less: (T, T) -> bool, store: seq<T>, i: nat)
    requires StrictWeak(less) && Ordered(less, store) && i < |store|
    ensures !less(store[i], store[0])
    decreases i
  {
    if i > 0 {
      RootLeast(less, store, Parent(i));
      assert InOrder(less, store, i);
    }
  }

  // ---------- one swap ----------

  lemma SwapIndexed<T>(store: seq<T>, index: map<T, nat>, x: nat, y: nat)
    requires Indexed(store, index) && x < |store| && y < |store|
    ensures var r := Swapped(store, x, y); Indexed(r, index[r[x] := x][r[y] := y])
  {
    var r := Swapped(store, x, y);
    var index' := index[r[x] := x][r[y] := y];
    forall i | 0 <= i < |r| ensures r[i] in index' && index'[r[i]] == i {
      assert store[i] in index && index[store[i]] == i && index[store[x]] == x && index[store[y]] == y;
    }
    forall e | e in index' ensures index'[e] < |r| && r[index'[e]] == e {
      assert store[x] in index && store[y] in index;
      if e in index { assert store[index[e]] == e; }
    }
  }

  /** Moving i up past a greater parent leaves a gap there. */
  lemma UpStep<T(!new)>(less: (T, T) -> bool, store: seq<T>, i: nat)
    requires StrictWeak(less) && OrderedBelow(less, store, i) && i > 0 && less(store[i], store[Parent(i)])
    ensures OrderedBelow(less, Swapped(store, i, Parent(i)), Parent(i))
  {
    var p, r := Parent(i), Swapped(store, i, Parent(i));
    forall k | 0 < k < |r| && k != p ensures InOrder(less, r, k) {
      if k != i { assert InOrder(less, store, k); }
      if Parent(k) == i { assert OverGap(less, store, i, k); }
    }
    forall k | 0 < k < |r| && Parent(k) == p && p > 0 ensures OverGap(less, r, p, k) {
      assert InOrder(less, store, p);
      if k != i { assert InOrder(less, store, k); }
    }
  }

  lemma UpDone<T>(less: (T, T) -> bool, store: seq<T>, i: nat)
    requires OrderedBelow(less, store, i) && (i == 0 || !less(store[i], store[Parent(i)]))
    ensures Ordered(less, store)
  {
    forall k | 0 < k < |store| ensures InOrder(less, store, k) {
    }
  }

  /** c is the child of i that is not greater than the other. */
  ghost predicate LeastChild<T>(less: (T, T) -> bool, store: seq<T>, i: nat, c: nat) {
    && 0 < c < |store| && Parent(c) == i
    && forall k {:trigger ChildAfter(less, store, c, k)} | 0 < k < |store| && Parent(k) == i :: ChildAfter(less, store, c, k)
  }

  ghost predicate ChildAfter<T>(less: (T, T) -> bool, store: seq<T>, c: nat, k: int) {
    c < |store| && 0 <= k < |store| && !less(store[k], store[c])
  }

  /** Moving i down past its least child, which it is not less than, leaves a gap there. */
  lemma DownStep<T(!new)>(less: (T, T) -> bool, store: seq<T>, i: nat, c: nat)
    requires StrictWeak(less) && OrderedAround(less, store, i) && LeastChild(less, store, i, c) && !less(store[i], store[c])
    requires i > 0 ==> !less(store[i], store[Parent(i)])
    ensures var r := Swapped(store, i, c); OrderedAround(less, r, c) && !less(r[c], r[i])
  {
    var r := Swapped(store, i, c);
    forall k | 0 < k < |r| && k != c && Parent(k) != c ensures InOrder(less, r, k) {
      if k == i { assert OverGap(less, store, i, c); }
      else if Parent(k) == i { assert ChildAfter(less, store, c, k); }
      else { assert InOrder(less, store, k); }
    }
    forall k | 0 < k < |r| && Parent(k) == c && c > 0 ensures OverGap(less, r, c, k) {
      assert InOrder(less, store, k);
    }
  }

  lemma DownDone<T(!new)>(less: (T, T) -> bool, store: seq<T>, i: nat)
    requires StrictWeak(less) && OrderedAround(less, store, i) && (i > 0 ==> !less(store[i], store[Parent(i)]))
    requires 2 * i + 1 >= |store| || exists c: nat :: LeastChild(less, store, i, c) && less(store[i], store[c])
    ensures Ordered(less, store)
  {
    forall k | 0 < k < |store| ensures InOrder(less, store, k) {
      if k != i && Parent(k) == i {
        var c: nat :| LeastChild(less, store, i, c) && less(store[i], store[c]);
        assert ChildAfter(less, store, c, k);
        assert less(store[i], store[c]) && !less(store[k], store[c]);
        LessNotLess(less, store[i], store[c], store[k]);
      }
    }
  }

  lemma LessNotLess<T(!new)>(less: (T, T) -> bool, x: T, y: T, z: T)
    requires StrictWeak(less) && less(x, y) && !less(z, y)
    ensures less(x, z) && !less(z, x)
  {
  }

  // ---------- erasing ----------

  /** Where the last element takes the place of the one at i, order is kept but for i. */
  lemma EraseLeaves<T(!new)>(less: (T, T) -> bool, store: seq<T>, i: nat)
    requires StrictWeak(less) && Ordered(less, store) && i + 1 < |store|
    ensures OrderedAround(less, Swapped(store, i, |store| - 1)[..|store| - 1], i)
  {
    var r := Swapped(store, i, |store| - 1)[..|store| - 1];
    forall k | 0 < k < |r| && k != i && Parent(k) != i ensures InOrder(less, r, k) {
      assert InOrder(less, store, k);
    }
    forall k | 0 < k < |r| && Parent(k) == i && i > 0 ensures OverGap(less, r, i, k) {
      assert InOrder(less, store, k) && InOrder(less, store, i);
    }
  }

  /** If the moved element is less than the parent of its new place, it is less than its children there, so `heap_down`
      stops at once and the order is lost. */
  lemma EraseLoses<T(!new)>(less: (T, T) -> bool, store: seq<T>, i: nat, c: nat)
    requires StrictWeak(less) && OrderedAround(less, store, i) && i > 0 && less(store[i], store[Parent(i)])
    ensures !Ordered(less, store)
    ensures 0 < c < |store| && Parent(c) == i ==> less(store[i], store[c])
  {
    assert !InOrder(less, store, i);
    if 0 < c < |store| && Parent(c) == i {
      assert OverGap(less, store, i, c);
      LessNotLess(less, store[i], store[Parent(i)], store[c]);
    }
  }

  lemma PopIndexed<T>(store: seq<T>, index: map<T, nat>)
    requires Indexed(store, index) && store != []
    ensures Indexed(store[..|store| - 1], index - {store[|store| - 1]})
  {
    var n := |store| - 1;
    var r, index' := store[..n], index - {store[n]};
    assert index[store[n]] == n;
    forall i | 0 <= i < |r| ensures r[i] in index' && index'[r[i]] == i {
      assert store[i] in index && index[store[i]] == i;
    }
    forall e | e in index' ensures index'[e] < |r| && r[index'[e]] == e {
      assert index[e] < |store| && store[index[e]] == e;
    }
  }

  lemma PushIndexed<T>(store: seq<T>, index: map<T, nat>, x: T)
    requires Indexed(store, index) && x !in index
    ensures Indexed(store + [x], index[x := |store|])
  {
    var r, index' := store + [x], index[x := |store|];
    forall i | 0 <= i < |r| ensures r[i] in index' && index'[r[i]] == i {
      if i < |store| { assert store[i] in index && index[store[i]] == i; }
    }
  }

  lemma PushOrdered<T>(less: (T, T) -> bool, store: seq<T>, x: T)
    requires Ordered(less, store)
    ensures OrderedBelow(less, store + [x], |store|)
  {
    var r := store + [x];
    forall k | 0 < k < |r| && k != |store| ensures InOrder(less, r, k) { assert InOrder(less, store, k); }
  }

  lemma PrefixOrdered<T>(less: (T, T) -> bool, store: seq<T>)
    requires Ordered(less, store) && store != []
    ensures Ordered(less, store[..|store| - 1])
  {
    var r := store[..|store| - 1];
    forall k | 0 < k < |r| ensures InOrder(less, r, k) { assert InOrder(less, store, k); }
  }

  /** An ordered heap and an erasure that loses its order: 11 goes, and 4, the last, comes to stand below 10. */
  lemma OrderCanBeLost()
    ensures var less := (x: int, y: int) => x < y; var store := [1, 10, 2, 11, 12, 3, 4];
      StrictWeak(less) && Ordered(less, store) && store[3] == 11 && less(store[6], store[Parent(3)])
  {
    var less, store := (x: int, y: int) => x < y, [1, 10, 2, 11, 12, 3, 4];
    forall k | 0 < k < |store| ensures InOrder(less, store, k) {
      assert k == 1 || k == 2 || k == 3 || k == 4 || k == 5 || k == 6;
    }
  }

  class Heap<T(==, !new)> {
    const less: (T, T) -> bool
    var storage: seq<T>
    var index: map<T, nat>

    ghost predicate Valid()
      reads this
    {
      StrictWeak(less) && Indexed(storage, index)
    }

    constructor (less: (T, T) -> bool)
      requires StrictWeak(less)
      ensures Valid() && Ordered(less, storage) && storage == [] && this.less == less
    {
      this.less, storage, index := less, [], map[];
    }

    method SwapElements(x: nat, y: nat)
      requires Indexed(storage, index) && x < |storage| && y < |storage|
      modifies this
      ensures Indexed(storage, index) && storage == Swapped(old(storage), x, y)
    {
      SwapIndexed(storage, index, x, y);
      storage := storage[x := storage[y]][y := storage[x]];
      index := index[storage[x] := x];
      index := index[storage[y] := y];
    }

    method HeapUp(at: nat)
      requires Valid() && at < |storage|
      modifies this
      ensures Valid() && multiset(storage) == multiset(old(storage))
      ensures old(OrderedBelow(less, storage, at)) ==> Ordered(less, storage)
    {
      ghost var ordered := OrderedBelow(less, storage, at);
      var i: nat := at;
      while i > 0 && less(storage[i], storage[Parent(i)])
        invariant i < |storage| && Valid() && multiset(storage) == multiset(old(storage))
        invariant ordered ==> OrderedBelow(less, storage, i)
        decreases i
      {
        if ordered { UpStep(less, storage, i); }
        var p := Parent(i);
        SwapElements(i, p);
        i := p;
      }
      if ordered { UpDone(less, storage, i); }
    }

    /** Restores the order below `at`; that with the parent of `at` is not looked at. */
    method HeapDown(at: nat)
      requires Valid() && at < |storage|
      modifies this
      ensures Valid() && multiset(storage) == multiset(old(storage)) && |storage| == |old(storage)|
      ensures old(OrderedAround(less, storage, at)) ==>
        (Ordered(less, storage) <==> KeptAt(less, old(storage), at))
    {
      ghost var ordered := OrderedAround(less, storage, at);
      ghost var lost := ordered && at > 0 && less(storage[at], storage[Parent(at)]);
      if lost { EraseLoses(less, storage, at, 0); }
      var i: nat := at;
      var child: nat := i * 2 + 1;
      while child < |storage|
        invariant child == i * 2 + 1 && i < |storage| == |old(storage)|
        invariant Valid() && multiset(storage) == multiset(old(storage))
        invariant lost ==> i == at && storage == old(storage)
        invariant ordered ==> OrderedAround(less, storage, i) && (!lost ==> i == 0 || !less(storage[i], storage[Parent(i)]))
        decreases |storage| - i
      {
        if child + 1 < |storage| && less(storage[child + 1], storage[child]) { child := child + 1; }
        ChildrenOf(less, storage, i, child);
        if lost { EraseLoses(less, storage, at, child); }
        if less(storage[i], storage[child]) { break; }
        if ordered { DownStep(less, storage, i, child); }
        SwapElements(i, child);
        i := child;
        child := i * 2 + 1;
      }
      if ordered && !lost { DownDone(less, storage, i); }
    }

    /** None where the source throws. */
    method Top() returns (x: Option<T>)
      requires Valid()
      ensures x == if storage == [] then None else Some(storage[0])
      ensures Ordered(less, storage) ==> forall i | 0 <= i < |storage| :: !less(storage[i], storage[0])
    {
      if |storage| == 0 { return None; }
      x := Some(storage[0]);
      if Ordered(less, storage) {
        forall i | 0 <= i < |storage| ensures !less(storage[i], storage[0]) { RootLeast(less, storage, i); }
      }
    }

    /** Puts v into the heap, unless it is there. */
    method Insert(v: T)
      requires Valid()
      modifies this
      ensures Valid() && (old(Ordered(less, storage)) ==> Ordered(less, storage))
      ensures multiset(storage) == multiset(old(storage)) + (if v in old(storage) then multiset{} else multiset{v})
    {
      InIndex(storage, index, v);
      if v in index { return; }
      PushIndexed(storage, index, v);
      if Ordered(less, storage) { PushOrdered(less, storage, v); }
      index := index[v := |storage|];
      storage := storage + [v];
      HeapUp(|storage| - 1);
    }

    /** Takes v out. Unless v was the last element, the last takes its place; the order is kept if and only if the element
        moved there is not less than the parent of the place, if that has one. */
    method Erase(v: T) returns (n: nat)
      requires Valid()
      modifies this
      ensures Valid() && n == (if v in old(storage) then 1 else 0)
      ensures multiset(storage) == multiset(old(storage)) - multiset{v}
      ensures v !in old(storage) ==> storage == old(storage)
      ensures v in old(storage) ==> v in old(index) && old(index)[v] < |old(storage)| && old(storage)[old(index)[v]] == v
      ensures old(Ordered(less, storage)) && v in old(storage) ==>
        (Ordered(less, storage) <==> KeepsOrder(less, old(storage), old(index)[v]))
      ensures old(Ordered(less, storage)) && v !in old(storage) ==> Ordered(less, storage)
    {
      InIndex(storage, index, v);
      if v !in index {
        assert multiset(storage) - multiset{v} == multiset(storage);
        return 0;
      }
      EraseAt(index[v]);
      n := 1;
    }

    /** `erase_` of the element at `pos`. */
    method EraseAt(pos: nat)
      requires Valid() && pos < |storage|
      modifies this
      ensures Valid() && multiset(storage) == multiset(old(storage)) - multiset{old(storage)[pos]}
      ensures old(Ordered(less, storage)) ==> (Ordered(less, storage) <==> KeepsOrder(less, old(storage), pos))
    {
      hide Ordered, OrderedAround, Indexed, StrictWeak, Swapped, KeepsOrder;
      KeepsOrderMoved(less, storage, pos);
      ghost var ordered := Ordered(less, storage);
      if pos + 1 == |storage| {
        if ordered { PrefixOrdered(less, storage); }
        DropLast();
      } else {
        if ordered { EraseLeaves(less, storage, pos); }
        MoveLast(pos);
        HeapDown(pos);
      }
    }

    /** The last element takes the place of the one at `pos`. */
    method MoveLast(pos: nat)
      requires Valid() && pos + 1 < |storage|
      modifies this
      ensures Valid() && storage == Swapped(old(storage), pos, |old(storage)| - 1)[..|old(storage)| - 1]
      ensures multiset(storage) == multiset(old(storage)) - multiset{old(storage)[pos]}
    {
      SwapElements(pos, |storage| - 1);
      DropLast();
    }

    /** `hash_map_.erase( storage_.back() )` and `storage_.pop_back()`. */
    method DropLast()
      requires Valid() && storage != []
      modifies this
      ensures Valid() && storage == old(storage)[..|old(storage)| - 1]
      ensures multiset(storage) == multiset(old(storage)) - multiset{old(storage)[|old(storage)| - 1]}
    {
      PopIndexed(storage, index);
      index := index - {storage[|storage| - 1]};
      assert storage == storage[..|storage| - 1] + [storage[|storage| - 1]];
      storage := storage[..|storage| - 1];
    }

    /** Takes the top out; an empty heap stays empty. */
    method Pop()
      requires Valid()
      modifies this
      ensures Valid() && (old(Ordered(less, storage)) ==> Ordered(less, storage))
      ensures old(storage) == [] ==> storage == []
      ensures old(storage) != [] ==> multiset(storage) == multiset(old(storage)) - multiset{old(storage)[0]}
    {
      if |storage| > 0 { EraseAt(0); }
    }

    /** Popping an ordered heap to empty yields its contents in order. */
    method Drain() returns (out: seq<T>)
      requires Valid() && Ordered(less, storage)
      modifies this
      ensures storage == [] && multiset(out) == multiset(old(storage)) && Rising(less, out)
    {
      out := [];
      while storage != []
        invariant Valid() && Ordered(less, storage) && multiset(out) + multiset(storage) == multiset(old(storage))
        invariant Rising(less, out) && Above(less, out, storage)
        decreases |storage|
      {
        var x := Top();
        ghost var store := storage;
        Pop();
        DrainNext(less, out, store, storage, x.value);
        hide Ordered, Rising, Above, StrictWeak, Indexed;
        out := out + [x.value];
      }
    }
  }

  /** No element is less than one before it. */
  ghost predicate Rising<T>(less: (T, T) -> bool, out: seq<T>) {
    forall i, j | 0 <= i < j < |out| :: !less(out[j], out[i])
  }

  /** What is in the heap is not less than what has been taken out. */
  ghost predicate Above<T(!new)>(less: (T, T) -> bool, out: seq<T>, store: seq<T>) {
    forall x, i | x in multiset(store) && 0 <= i < |out| :: !less(x, out[i])
  }

  lemma DrainNext<T(!new)>(less: (T, T) -> bool, out: seq<T>, store: seq<T>, r: seq<T>, x: T)
    requires StrictWeak(less) && Ordered(less, store) && Rising(less, out) && Above(less, out, store)
    requires store != [] && x == store[0] && multiset(r) == multiset(store) - multiset{x}
    ensures Rising(less, out + [x]) && Above(less, out + [x], r) && |r| == |store| - 1
    ensures multiset(out + [x]) + multiset(r) == multiset(out) + multiset(store)
  {
    RestNotLess(less, store);
    SmallerSize(r, store);
    assert x in multiset(store);
  }

  /** The element moved to `pos` by an erasure, if any, is not less than the parent there. */
  ghost predicate KeepsOrder<T>(less: (T, T) -> bool, store: seq<T>, pos: nat) {
    pos < |store| && (pos + 1 == |store| || pos == 0 || !less(store[|store| - 1], store[Parent(pos)]))
  }

  lemma KeepsOrderMoved<T>(less: (T, T) -> bool, store: seq<T>, pos: nat)
    requires pos < |store|
    ensures pos + 1 == |store| ==> KeepsOrder(less, store, pos)
    ensures pos + 1 < |store| ==>
      (KeepsOrder(less, store, pos) <==> KeptAt(less, Swapped(store, pos, |store| - 1)[..|store| - 1], pos))
  {
  }

  ghost predicate KeptAt<T>(less: (T, T) -> bool, store: seq<T>, pos: nat) {
    pos < |store| && (pos == 0 || !less(store[pos], store[Parent(pos)]))
  }

  lemma InIndex<T>(store: seq<T>, index: map<T, nat>, v: T)
    requires Indexed(store, index)
    ensures v in index <==> v in store
    ensures v in index ==> index[v] < |store| && store[index[v]] == v
  {
    if v in index { assert store[index[v]] == v; }
    if v in store { var i: nat :| i < |store| && store[i] == v; assert store[i] in index; }
  }

  lemma RestNotLess<T(!new)>(less: (T, T) -> bool, store: seq<T>)
    requires StrictWeak(less) && Ordered(less, store) && store != []
    ensures forall x | x in multiset(store) :: !less(x, store[0])
  {
    forall x | x in multiset(store) ensures !less(x, store[0]) {
      var i: nat :| i < |store| && store[i] == x;
      RootLeast(less, store, i);
    }
  }

  lemma SmallerSize<T>(r: seq<T>, store: seq<T>)
    requires store != [] && multiset(r) == multiset(store) - multiset{store[0]}
    ensures |r| == |store| - 1
    ensures forall x | x in multiset(r) :: x in multiset(store)
  {
    assert |multiset(r)| == |r| && |multiset(store)| == |store| && store[0] in multiset(store);
  }

  lemma NotBoth<T(!new)>(less: (T, T) -> bool, x: T, y: T)
    requires StrictWeak(less)
    ensures less(x, y) ==> !less(y, x)
  {
    assert !less(x, x);
  }

  /** The child the loop has chosen. */
  lemma ChildrenOf<T(!new)>(less: (T, T) -> bool, store: seq<T>, i: nat, c: nat)
    requires StrictWeak(less) && 2 * i + 1 < |store| && (c == 2 * i + 1 || c == 2 * i + 2) && c < |store|
    requires c == 2 * i + 1 ==> c + 1 < |store| ==> !less(store[c + 1], store[c])
    requires c == 2 * i + 2 ==> less(store[c], store[c - 1])
    ensures LeastChild(less, store, i, c)
  {
    forall k | 0 < k < |store| && Parent(k) == i ensures ChildAfter(less, store, c, k) {
      NotBoth(less, store[c], store[k]);
      assert !less(store[c], store[c]);
    }
  }
}
