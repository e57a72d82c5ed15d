/** Edge lists in lexicographic order, as `std::sort` leaves them, and the position searches
    `std::lower_bound` and `std::upper_bound` on them. */
module SortedEdges {
  import opened Paths

  predicate Less(a: Edge, b: Edge) {
    a.0 < b.0 || (a.0 == b.0 && a.1 < b.1)
  }

  ghost predicate Sorted(es: seq<Edge>) {
    forall i, j :: InOrder(es, i, j)
  }

  ghost predicate InOrder(es: seq<Edge>, i: int, j: int) {
    0 <= i < j < |es| ==> !Less(es[j], es[i])
  }

  function Insert(x: Edge, es: seq<Edge>): (r: seq<Edge>)
    ensures multiset(r) == multiset(es) + multiset{x}
  {
    if es == [] || !Less(es[0], x) then [x] + es
    else
      assert es == [es[0]] + es[1..];
      [es[0]] + Insert(x, es[1..])
  }

  lemma {:induction false} InsertSorted(x: Edge, es: seq<Edge>)
    requires Sorted(es)
    ensures Sorted(Insert(x, es))
  {
    var r := Insert(x, es);
    if es != [] && Less(es[0], x) {
      forall i, j ensures InOrder(es[1..], i, j) { assert InOrder(es, i + 1, j + 1); }
      InsertSorted(x, es[1..]);
      var t := Insert(x, es[1..]);
      forall k | 0 <= k < |t| ensures !Less(t[k], es[0]) {
        assert t[k] in multiset(t);
        assert t[k] == x || t[k] in es[1..];
        if t[k] in es[1..] {
          var j :| 0 <= j < |es| - 1 && es[1..][j] == t[k];
          assert InOrder(es, 0, j + 1);
        }
      }
      forall i, j ensures InOrder(r, i, j) { assert InOrder(t, i - 1, j - 1); }
    } else {
      forall i, j ensures InOrder(r, i, j) {
        assert InOrder(es, i - 1, j - 1);
        if i == 0 && 1 < j < |r| { assert InOrder(es, 0, j - 1); }
      }
    }
  }

  function Sort(es: seq<Edge>): (r: seq<Edge>)
    ensures multiset(r) == multiset(es)
  {
    if es == [] then [] else
      assert es == [es[0]] + es[1..];
      Insert(es[0], Sort(es[1..]))
  }

  lemma {:induction false} SortSorts(es: seq<Edge>)
    ensures Sorted(Sort(es)) && |Sort(es)| == |es| && EdgesOf(Sort(es)) == EdgesOf(es)
  {
    if es != [] {
      SortSorts(es[1..]);
      InsertSorted(es[0], Sort(es[1..]));
    }
    var r := Sort(es);
    assert |multiset(r)| == |multiset(es)|;
    assert forall x :: x in r <==> x in multiset(r);
    assert forall x :: x in es <==> x in multiset(es);
  }

  // ---------- things sorted by their edges ----------

  ghost function InsertBeside<T>(e: Edge, es: seq<Edge>, x: T, xs: seq<T>): (r: seq<T>)
    requires |es| == |xs|
    ensures multiset(r) == multiset(xs) + multiset{x}
  {
    if es == [] || !Less(es[0], e) then [x] + xs
    else
      assert xs == [xs[0]] + xs[1..];
      [xs[0]] + InsertBeside(e, es[1..], x, xs[1..])
  }

  /** Things moved along as their edges are sorted. */
  ghost function SortBeside<T>(es: seq<Edge>, xs: seq<T>): (r: seq<T>)
    requires |es| == |xs|
    ensures multiset(r) == multiset(xs) && |r| == |xs|
  {
    if es == [] then [] else
      SortSorts(es[1..]);
      assert xs == [xs[0]] + xs[1..];
      var r := InsertBeside(es[0], Sort(es[1..]), xs[0], SortBeside(es[1..], xs[1..]));
      assert |multiset(r)| == |multiset(xs)|;
      r
  }

  ghost predicate Belong<T>(belongs: (T, Edge) -> bool, xs: seq<T>, es: seq<Edge>) {
    |xs| == |es| && forall i | 0 <= i < |xs| :: belongs(xs[i], es[i])
  }

  lemma BelongFirst<T>(belongs: (T, Edge) -> bool, xs: seq<T>, es: seq<Edge>, x: T, e: Edge)
    requires Belong(belongs, xs, es) && belongs(x, e)
    ensures Belong(belongs, [x] + xs, [e] + es)
  {
  }

  lemma {:induction false} InsertedBelong<T>(belongs: (T, Edge) -> bool, e: Edge, es: seq<Edge>, x: T, xs: seq<T>)
    requires Belong(belongs, xs, es) && belongs(x, e)
    ensures Belong(belongs, InsertBeside(e, es, x, xs), Insert(e, es))
  {
    if es == [] || !Less(es[0], e) {
      BelongFirst(belongs, xs, es, x, e);
    } else {
      var rest, others := es[1..], xs[1..];
      assert forall i | 0 <= i < |others| :: belongs(others[i], rest[i]);
      InsertedBelong(belongs, e, rest, x, others);
      BelongFirst(belongs, InsertBeside(e, rest, x, others), Insert(e, rest), xs[0], es[0]);
    }
  }

  /** They stay with their edges. */
  lemma {:induction false} SortedBelong<T>(belongs: (T, Edge) -> bool, es: seq<Edge>, xs: seq<T>)
    requires Belong(belongs, xs, es)
    ensures Belong(belongs, SortBeside(es, xs), Sort(es))
  {
    if es != [] {
      SortedBelong(belongs, es[1..], xs[1..]);
      InsertedBelong(belongs, es[0], Sort(es[1..]), xs[0], SortBeside(es[1..], xs[1..]));
    }
  }

  /** The first position whose edge is not below `k`. */
  function LowerBound(es: seq<Edge>, k: Edge): (i: nat)
    ensures i <= |es|
    ensures forall j | 0 <= j < i :: Less(es[j], k)
    ensures i < |es| ==> !Less(es[i], k)
  {
    if es == [] || !Less(es[0], k) then 0 else 1 + LowerBound(es[1..], k)
  }

  /** The first position whose edge is above `k`. */
  function UpperBound(es: seq<Edge>, k: Edge): (i: nat)
    ensures i <= |es|
    ensures forall j | 0 <= j < i :: !Less(k, es[j])
    ensures i < |es| ==> Less(k, es[i])
  {
    if es == [] || Less(k, es[0]) then 0 else 1 + UpperBound(es[1..], k)
  }

  /** From `lo` a scan while the first component is `v` has seen every edge of `v` once it stops at `hi`. */
  lemma ScanComplete(es: seq<Edge>, v: nat, lo: nat, hi: nat)
    requires Sorted(es) && lo <= hi <= |es|
    requires forall j | 0 <= j < lo :: es[j].0 < v
    requires hi < |es| ==> es[hi].0 != v && (if lo < hi then es[hi - 1].0 == v else es[hi].0 >= v)
    ensures forall j | 0 <= j < |es| && es[j].0 == v :: lo <= j < hi
  {
    if hi < |es| {
      if lo < hi { assert InOrder(es, hi - 1, hi); }
      assert v < es[hi].0;
      forall j | hi < j < |es| ensures v < es[j].0 {
        assert InOrder(es, hi, j);
      }
    }
  }
}
