/** The region steps of the watershed: merging small regions in one pass over the graph in falling order of
    affinity, compacting the surviving region numbers, and the dendrogram of the survivors. */
module RegionMerge {
  import opened DisjointSets
  import opened Options
  import opened Paths

  /** An edge of the region graph. */
  datatype Weighted = Weighted(weight: real, a: nat, b: nat)

  /** Sorted by rising weight, as the passes expect; they run from the end. */
  ghost predicate Rising(graph: seq<Weighted>) {
    forall i, j :: InOrder(graph, i, j)
  }

  ghost predicate InOrder(graph: seq<Weighted>, i: int, j: int) {
    0 <= i < j < |graph| ==> graph[i].weight <= graph[j].weight
  }

  /** Edges join two different regions; region 0 is the background. */
  ghost predicate RegionGraph(graph: seq<Weighted>, n: nat) {
    forall e | e in graph :: 1 <= e.a < n && 1 <= e.b < n && e.a != e.b
  }

  // ---------- sizes ----------

  /** The counted voxels whose label belongs to class `r`. */
  ghost function VoxelsOf(ids: seq<nat>, counted: set<nat>, rep: seq<nat>, r: nat): (s: set<nat>) {
    set i | i in counted && i < |ids| && ids[i] < |rep| && rep[ids[i]] == r
  }

  /** The counted voxels with label `k`. */
  ghost function Labelled(ids: seq<nat>, counted: set<nat>, k: nat): (s: set<nat>) {
    set i | i in counted && i < |ids| && ids[i] == k
  }

  /** `sizes[r]` counts the voxels of class `r`: zero unless `r` represents one. */
  ghost predicate SizesOf(sizes: seq<nat>, ids: seq<nat>, counted: set<nat>, rep: seq<nat>) {
    && |sizes| == |rep|
    && forall r: nat {:trigger VoxelsOf(ids, counted, rep, r)} | r < |rep| :: sizes[r] == |VoxelsOf(ids, counted, rep, r)|
  }

  /** A class is on the border when one of its regions is. */
  ghost predicate BorderOf(border: seq<bool>, initial: seq<bool>, rep: seq<nat>) {
    && |border| == |initial| == |rep|
    && forall r: nat | r < |rep| && rep[r] == r :: border[r] <==> SomeOnBorder(initial, rep, r)
  }

  ghost predicate SomeOnBorder(initial: seq<bool>, rep: seq<nat>, r: nat) {
    exists l: nat :: l < |rep| && l < |initial| && rep[l] == r && initial[l]
  }

  // ---------- the merging pass ----------

  ghost predicate Settled(sizes: seq<nat>, border: seq<bool>, limit: nat, r: nat) {
    r < |sizes| && r < |border| && (sizes[r] >= limit || border[r])
  }

  /** An edge that leaves nothing to merge: one class, or two classes each large enough or on the border. */
  ghost predicate EdgeSettled(rep: seq<nat>, sizes: seq<nat>, border: seq<bool>, limit: nat, e: Weighted) {
    e.a < |rep| && e.b < |rep| &&
    (rep[e.a] == rep[e.b] || (Settled(sizes, border, limit, rep[e.a]) && Settled(sizes, border, limit, rep[e.b])))
  }

  /** Positions, each after the next. */
  ghost predicate Falling(ks: seq<nat>) {
    forall i, j :: FallingAt(ks, i, j)
  }

  ghost predicate FallingAt(ks: seq<nat>, i: int, j: int) {
    0 <= i < j < |ks| ==> ks[i] > ks[j]
  }

  ghost predicate Within(ks: seq<nat>, lo: nat, hi: nat) {
    forall k | k in ks :: lo <= k < hi
  }

  /** Of the positions joined at, those the pass comes to before `k`. */
  ghost function Earlier(joins: seq<nat>, k: nat): (r: seq<nat>)
    ensures forall j | j in r :: j in joins && j > k
  {
    if joins == [] then [] else
      var n := |joins| - 1;
      assert joins == joins[..n] + [joins[n]];
      if joins[n] > k then Earlier(joins[..n], k) + [joins[n]] else Earlier(joins[..n], k)
  }

  /** The edges at given positions. */
  ghost function EdgesAt(graph: seq<Weighted>, ks: seq<nat>): (ops: seq<Edge>)
    requires Within(ks, 0, |graph|)
  {
    seq(|ks|, j requires 0 <= j < |ks| => assert ks[j] in ks; (graph[ks[j]].a, graph[ks[j]].b))
  }

  /** The classes of `n` regions after joining along the edges at given positions, in that order. */
  ghost function ClassesAt(graph: seq<Weighted>, ks: seq<nat>, n: nat): (c: Classes)
    requires Within(ks, 0, |graph|) && RegionGraph(graph, n)
    ensures |c.rep| == n && WellFormed(c)
  {
    EdgesAtInside(graph, ks, n);
    AfterJoins(n, EdgesAt(graph, ks))
  }

  lemma EdgesAtInside(graph: seq<Weighted>, ks: seq<nat>, n: nat)
    requires Within(ks, 0, |graph|) && RegionGraph(graph, n)
    ensures forall e | e in EdgesAt(graph, ks) :: e.0 < n && e.1 < n
  {
    forall e | e in EdgesAt(graph, ks) ensures e.0 < n && e.1 < n {
      var j :| 0 <= j < |ks| && e == EdgesAt(graph, ks)[j];
      assert ks[j] in ks && graph[ks[j]] in graph;
    }
  }

  /** A class with too few voxels, none of its regions on the border at the start. */
  ghost predicate Small(ids: seq<nat>, counted: set<nat>, initial: seq<bool>, limit: nat, rep: seq<nat>, r: nat) {
    |VoxelsOf(ids, counted, rep, r)| < limit && !SomeOnBorder(initial, rep, r)
  }

  /** A join is due: two classes, one of them small. */
  ghost predicate Due(ids: seq<nat>, counted: set<nat>, initial: seq<bool>, limit: nat, rep: seq<nat>, e: Weighted) {
    && e.a < |rep| && e.b < |rep| && rep[e.a] != rep[e.b]
    && (Small(ids, counted, initial, limit, rep, rep[e.a]) || Small(ids, counted, initial, limit, rep, rep[e.b]))
  }

  /** Edge `k` was joined along just if it is heavy enough and that was due after the joins before it. */
  ghost predicate JoinedIfDue(graph: seq<Weighted>, n: nat, ids: seq<nat>, counted: set<nat>, initial: seq<bool>, limit: nat, least: real,
    joins: seq<nat>, k: nat)
    requires Within(joins, 0, |graph|) && RegionGraph(graph, n) && k < |graph|
  {
    k in joins <==> graph[k].weight >= least && Due(ids, counted, initial, limit, ClassesAt(graph, Earlier(joins, k), n).rep, graph[k])
  }

  /** The classes are those of the joins along `joins`, and these are just the joins due from position `i` on. */
  ghost predicate MergedAlong(c: Classes, graph: seq<Weighted>, ids: seq<nat>, counted: set<nat>, initial: seq<bool>, limit: nat,
    least: real, i: nat, joins: seq<nat>)
  {
    && i <= |graph| && Falling(joins) && Within(joins, i, |graph|)
    && Within(joins, 0, |graph|) && RegionGraph(graph, |c.rep|) && c == ClassesAt(graph, joins, |c.rep|)
    && forall k: nat {:trigger JoinedIfDue(graph, |c.rep|, ids, counted, initial, limit, least, joins, k)} | i <= k < |graph| ::
      JoinedIfDue(graph, |c.rep|, ids, counted, initial, limit, least, joins, k)
  }

  /** After the pass has handled the edges from position `i` on. */
  ghost predicate Merging(c: Classes, sizes: seq<nat>, border: seq<bool>, graph: seq<Weighted>, ids: seq<nat>, counted: set<nat>,
    initial: seq<bool>, limit: nat, least: real, i: nat, joins: seq<nat>)
  {
    && WellFormed(c) && |c.rep| == |sizes| && RegionGraph(graph, |sizes|)
    && SizesOf(sizes, ids, counted, c.rep) && BorderOf(border, initial, c.rep)
    && MergedAlong(c, graph, ids, counted, initial, limit, least, i, joins)
    && (forall l: nat | l < |c.rep| :: c.rep[l] == 0 <==> l == 0)
    && (forall k | i <= k < |graph| :: EdgeSettled(c.rep, sizes, border, limit, graph[k]))
  }

  /** The sizes after joining the classes of `x` and `y`: all of it at the winner. */
  function SizesAfter(sizes: seq<nat>, x: nat, y: nat, w: nat): (s: seq<nat>)
    requires x < |sizes| && y < |sizes| && w < |sizes|
  {
    sizes[x := 0][y := 0][w := sizes[x] + sizes[y]]
  }

  lemma MergeVoxels(ids: seq<nat>, counted: set<nat>, rep: seq<nat>, x: nat, y: nat, w: nat, r: nat)
    requires IsPartition(rep) && x < |rep| && y < |rep| && x != y && (w == x || w == y) && r < |rep|
    ensures |VoxelsOf(ids, counted, Merge(rep, x, y, w), r)| ==
      if r == w then |VoxelsOf(ids, counted, rep, x)| + |VoxelsOf(ids, counted, rep, y)|
      else if r == x || r == y then 0 else |VoxelsOf(ids, counted, rep, r)|
  {
    var m := Merge(rep, x, y, w);
    if r == w {
      assert VoxelsOf(ids, counted, m, r) == VoxelsOf(ids, counted, rep, x) + VoxelsOf(ids, counted, rep, y);
      assert VoxelsOf(ids, counted, rep, x) !! VoxelsOf(ids, counted, rep, y);
    } else if r == x || r == y {
      assert VoxelsOf(ids, counted, m, r) == {};
    } else {
      assert VoxelsOf(ids, counted, m, r) == VoxelsOf(ids, counted, rep, r);
    }
  }

  lemma MergeSizes(sizes: seq<nat>, ids: seq<nat>, counted: set<nat>, rep: seq<nat>, x: nat, y: nat, w: nat)
    requires IsPartition(rep) && SizesOf(sizes, ids, counted, rep)
    requires x < |rep| && y < |rep| && x != y && rep[x] == x && rep[y] == y && (w == x || w == y)
    ensures SizesOf(SizesAfter(sizes, x, y, w), ids, counted, Merge(rep, x, y, w))
  {
    hide Merge, VoxelsOf, IsPartition;
    MergeLength(rep, x, y, w);
    forall r: nat | r < |rep| ensures SizesAfter(sizes, x, y, w)[r] == |VoxelsOf(ids, counted, Merge(rep, x, y, w), r)| {
      MergeVoxels(ids, counted, rep, x, y, w, r);
      assert sizes[r] == |VoxelsOf(ids, counted, rep, r)|;
      assert sizes[x] == |VoxelsOf(ids, counted, rep, x)|;
      assert sizes[y] == |VoxelsOf(ids, counted, rep, y)|;
    }
  }

  lemma MergeLength(rep: seq<nat>, x: nat, y: nat, w: nat)
    ensures |Merge(rep, x, y, w)| == |rep|
  {
  }

  lemma MergeBorder(border: seq<bool>, initial: seq<bool>, rep: seq<nat>, x: nat, y: nat, w: nat)
    requires IsPartition(rep) && BorderOf(border, initial, rep)
    requires x < |rep| && y < |rep| && x != y && rep[x] == x && rep[y] == y && (w == x || w == y)
    ensures BorderOf(border[w := border[x] || border[y]], initial, Merge(rep, x, y, w))
  {
    var m, b := Merge(rep, x, y, w), border[w := border[x] || border[y]];
    forall r: nat | r < |m| && m[r] == r ensures b[r] <==> SomeOnBorder(initial, m, r) {
      if r == w {
        if SomeOnBorder(initial, rep, x) {
          var l: nat :| l < |rep| && rep[l] == x && initial[l];
          assert m[l] == w;
        }
        if SomeOnBorder(initial, rep, y) {
          var l: nat :| l < |rep| && rep[l] == y && initial[l];
          assert m[l] == w;
        }
        if SomeOnBorder(initial, m, w) {
          var l: nat :| l < |rep| && m[l] == w && initial[l];
          assert rep[l] == x || rep[l] == y;
        }
      } else {
        assert rep[r] == r;
        if SomeOnBorder(initial, rep, r) {
          var l: nat :| l < |rep| && rep[l] == r && initial[l];
          assert m[l] == r;
        }
        if SomeOnBorder(initial, m, r) {
          var l: nat :| l < |rep| && m[l] == r && initial[l];
          assert rep[l] == r;
        }
      }
    }
  }

  /** Sizes only grow and border flags only rise, so settled edges stay settled. */
  lemma SettledStays(rep: seq<nat>, sizes: seq<nat>, border: seq<bool>, limit: nat, x: nat, y: nat, w: nat, e: Weighted)
    requires IsPartition(rep) && |sizes| == |border| == |rep|
    requires x < |rep| && y < |rep| && x != y && rep[x] == x && rep[y] == y && (w == x || w == y)
    requires EdgeSettled(rep, sizes, border, limit, e)
    ensures EdgeSettled(Merge(rep, x, y, w), SizesAfter(sizes, x, y, w), border[w := border[x] || border[y]], limit, e)
  {
  }

  lemma {:induction false} EarlierAll(joins: seq<nat>, k: nat)
    requires forall j | j in joins :: j > k
    ensures Earlier(joins, k) == joins
  {
    if joins != [] {
      var n := |joins| - 1;
      assert joins == joins[..n] + [joins[n]] && joins[n] in joins;
      forall j | j in joins[..n] ensures j > k { assert j in joins; }
      EarlierAll(joins[..n], k);
    }
  }

  lemma EarlierMore(joins: seq<nat>, i: nat, k: nat)
    requires i <= k
    ensures Earlier(joins + [i], k) == Earlier(joins, k)
  {
    assert (joins + [i])[..|joins|] == joins;
  }

  /** One join more. */
  lemma ClassesNext(graph: seq<Weighted>, joins: seq<nat>, n: nat, i: nat)
    requires Within(joins, 0, |graph|) && RegionGraph(graph, n) && i < |graph|
    ensures Within(joins + [i], 0, |graph|) && graph[i].a < n && graph[i].b < n
    ensures ClassesAt(graph, joins + [i], n) == JoinSets(ClassesAt(graph, joins, n), graph[i].a, graph[i].b)
  {
    hide JoinSets, WellFormed;
    var ops := EdgesAt(graph, joins + [i]);
    assert graph[i] in graph;
    assert ops[..|joins|] == EdgesAt(graph, joins) && ops[|joins|] == (graph[i].a, graph[i].b);
    EdgesAtInside(graph, joins + [i], n);
  }

  lemma MergedAlongNext(c: Classes, graph: seq<Weighted>, ids: seq<nat>, counted: set<nat>, initial: seq<bool>, limit: nat,
    least: real, i: nat, joins: seq<nat>)
    requires i < |graph| && MergedAlong(c, graph, ids, counted, initial, limit, least, i + 1, joins)
    requires graph[i].weight >= least && Due(ids, counted, initial, limit, c.rep, graph[i])
    ensures WellFormed(c)
    ensures MergedAlong(JoinRoots(c, c.rep[graph[i].a], c.rep[graph[i].b]), graph, ids, counted, initial, limit, least, i, joins + [i])
  {
    hide ClassesAt, WellFormed, Due, RegionGraph;
    var n, more := |c.rep|, joins + [i];
    ClassesNext(graph, joins, n, i);
    JoinSetsIs(c, ids, counted, initial, limit, graph[i]);
    forall a, b ensures FallingAt(more, a, b) { assert FallingAt(joins, a, b); assert 0 <= a < |joins| ==> joins[a] in joins; }
    EarlierAll(joins, i);
    forall k: nat | i <= k < |graph| ensures JoinedIfDue(graph, n, ids, counted, initial, limit, least, more, k) {
      EarlierMore(joins, i, k);
      if k > i { assert JoinedIfDue(graph, n, ids, counted, initial, limit, least, joins, k); }
    }
  }

  lemma JoinSetsIs(c: Classes, ids: seq<nat>, counted: set<nat>, initial: seq<bool>, limit: nat, e: Weighted)
    requires WellFormed(c) && Due(ids, counted, initial, limit, c.rep, e)
    ensures JoinSets(c, e.a, e.b) == JoinRoots(c, c.rep[e.a], c.rep[e.b]) && |JoinSets(c, e.a, e.b).rep| == |c.rep|
  {
  }

  lemma MergedAlongSkip(c: Classes, graph: seq<Weighted>, ids: seq<nat>, counted: set<nat>, initial: seq<bool>, limit: nat,
    least: real, i: nat, joins: seq<nat>)
    requires i < |graph| && MergedAlong(c, graph, ids, counted, initial, limit, least, i + 1, joins)
    requires !Due(ids, counted, initial, limit, c.rep, graph[i])
    ensures MergedAlong(c, graph, ids, counted, initial, limit, least, i, joins)
  {
    hide ClassesAt, WellFormed, Due, RegionGraph;
    EarlierAll(joins, i);
    forall k: nat | i <= k < |graph| ensures JoinedIfDue(graph, |c.rep|, ids, counted, initial, limit, least, joins, k) {
      if k > i { assert JoinedIfDue(graph, |c.rep|, ids, counted, initial, limit, least, joins, k); }
    }
  }

  /** The sizes and flags kept by the pass tell whether a join is due. */
  lemma DueByCounters(sizes: seq<nat>, border: seq<bool>, ids: seq<nat>, counted: set<nat>, initial: seq<bool>, limit: nat, rep: seq<nat>,
    e: Weighted)
    requires IsPartition(rep) && SizesOf(sizes, ids, counted, rep) && BorderOf(border, initial, rep) && e.a < |rep| && e.b < |rep|
    ensures var x, y := rep[e.a], rep[e.b];
      Due(ids, counted, initial, limit, rep, e) <==> x != y && ((sizes[x] < limit && !border[x]) || (sizes[y] < limit && !border[y]))
  {
    hide VoxelsOf;
    assert sizes[rep[e.a]] == |VoxelsOf(ids, counted, rep, rep[e.a])|;
    assert sizes[rep[e.b]] == |VoxelsOf(ids, counted, rep, rep[e.b])|;
  }

  /** Joining the two sets of edge `i`. */
  lemma MergeStep(c: Classes, sizes: seq<nat>, border: seq<bool>, graph: seq<Weighted>, ids: seq<nat>, counted: set<nat>,
    initial: seq<bool>, limit: nat, least: real, i: nat, joins: seq<nat>, x: nat, y: nat, w: nat)
    requires i < |graph| && graph[i].weight >= least
    requires Merging(c, sizes, border, graph, ids, counted, initial, limit, least, i + 1, joins)
    requires graph[i].a < |c.rep| && graph[i].b < |c.rep| && x == c.rep[graph[i].a] && y == c.rep[graph[i].b] && x != y
    requires x < |c.rep| && y < |c.rep| && w == Winner(c.rank, x, y) && |sizes| == |border| == |c.rep|
    requires (sizes[x] < limit && !border[x]) || (sizes[y] < limit && !border[y])
    ensures Merging(JoinRoots(c, x, y), SizesAfter(sizes, x, y, w), border[w := border[x] || border[y]], graph, ids, counted,
      initial, limit, least, i, joins + [i])
  {
    hide MergedAlong, Due;
    var rep := c.rep;
    MergeLength(rep, x, y, w);
    MergeSizes(sizes, ids, counted, rep, x, y, w);
    MergeBorder(border, initial, rep, x, y, w);
    JoinKeepsRanks(rep, c.rank, x, y, w);
    DueByCounters(sizes, border, ids, counted, initial, limit, rep, graph[i]);
    MergedAlongNext(c, graph, ids, counted, initial, limit, least, i, joins);
    assert graph[i] in graph;
    forall k | i <= k < |graph|
      ensures EdgeSettled(Merge(rep, x, y, w), SizesAfter(sizes, x, y, w), border[w := border[x] || border[y]], limit, graph[k])
    {
      if k > i { SettledStays(rep, sizes, border, limit, x, y, w, graph[k]); }
    }
  }

  /** Passing over edge `i`, settled as it is. */
  lemma MergeSkip(c: Classes, sizes: seq<nat>, border: seq<bool>, graph: seq<Weighted>, ids: seq<nat>, counted: set<nat>,
    initial: seq<bool>, limit: nat, least: real, i: nat, joins: seq<nat>)
    requires i < |graph| && EdgeSettled(c.rep, sizes, border, limit, graph[i])
    requires Merging(c, sizes, border, graph, ids, counted, initial, limit, least, i + 1, joins)
    ensures Merging(c, sizes, border, graph, ids, counted, initial, limit, least, i, joins)
  {
    hide MergedAlong, Due, SizesOf, BorderOf;
    DueByCounters(sizes, border, ids, counted, initial, limit, c.rep, graph[i]);
    MergedAlongSkip(c, graph, ids, counted, initial, limit, least, i, joins);
  }

  /** One pass is enough: every edge at or above the threshold, looked at or not, is settled afterwards. The pass has joined
      along just the heavy enough edges where that was due after the joins before, and regions are together exactly when
      these edges connect them. */
  lemma OnePassSettles(c: Classes, sizes: seq<nat>, border: seq<bool>, graph: seq<Weighted>, ids: seq<nat>, counted: set<nat>,
    initial: seq<bool>, limit: nat, least: real, done: nat, joins: seq<nat>)
    requires Merging(c, sizes, border, graph, ids, counted, initial, limit, least, done, joins) && Rising(graph)
    requires done == 0 || (done <= |graph| && graph[done - 1].weight < least)
    ensures forall k | 0 <= k < |graph| && graph[k].weight >= least :: EdgeSettled(c.rep, sizes, border, limit, graph[k])
    ensures Falling(joins) && Within(joins, 0, |graph|) && RegionGraph(graph, |c.rep|)
    ensures forall k: nat | k < |graph| :: JoinedIfDue(graph, |c.rep|, ids, counted, initial, limit, least, joins, k)
    ensures c == ClassesAt(graph, joins, |c.rep|) && Represents(c.rep, EdgesOf(EdgesAt(graph, joins)))
  {
    hide ClassesAt, Due;
    forall k | 0 <= k < |graph| && graph[k].weight >= least ensures EdgeSettled(c.rep, sizes, border, limit, graph[k]) {
      assert InOrder(graph, k, done - 1);
    }
    forall k: nat | k < |graph| ensures JoinedIfDue(graph, |c.rep|, ids, counted, initial, limit, least, joins, k) {
      if k < done { assert InOrder(graph, k, done - 1); }
    }
    JoinedConnect(c, graph, joins);
  }

  lemma JoinedConnect(c: Classes, graph: seq<Weighted>, joins: seq<nat>)
    requires Within(joins, 0, |graph|) && RegionGraph(graph, |c.rep|) && c == ClassesAt(graph, joins, |c.rep|)
    ensures Represents(c.rep, EdgesOf(EdgesAt(graph, joins)))
  {
    EdgesAtInside(graph, joins, |c.rep|);
    JoinsFormComponents(|c.rep|, EdgesAt(graph, joins));
  }

  /** Nothing is joined where every region is large enough or on the border to begin with. */
  lemma NothingDue(c: Classes, sizes: seq<nat>, graph: seq<Weighted>, ids: seq<nat>, counted: set<nat>, initial: seq<bool>, limit: nat,
    least: real, i: nat, joins: seq<nat>)
    requires MergedAlong(c, graph, ids, counted, initial, limit, least, i, joins)
    requires SizesOf(sizes, ids, counted, Identity(|sizes|)) && |initial| == |sizes| == |c.rep|
    requires forall r | 1 <= r < |sizes| :: sizes[r] >= limit || initial[r]
    ensures joins == [] && c.rep == Identity(|sizes|)
  {
    if joins != [] {
      var k, own := joins[0], Identity(|sizes|);
      assert k in joins;
      assert JoinedIfDue(graph, |c.rep|, ids, counted, initial, limit, least, joins, k);
      NoneEarlier(joins, k);
      assert graph[k] in graph;
      forall r: nat | 1 <= r < |sizes| ensures !Small(ids, counted, initial, limit, own, r) {
        assert sizes[r] == |VoxelsOf(ids, counted, own, r)|;
        if initial[r] { assert own[r] == r; }
      }
    }
  }

  lemma {:induction false} NoneEarlier(joins: seq<nat>, k: nat)
    requires Falling(joins) && (joins != [] ==> k >= joins[0])
    ensures Earlier(joins, k) == []
  {
    if joins != [] {
      var n := |joins| - 1;
      assert FallingAt(joins, 0, n);
      forall i, j ensures FallingAt(joins[..n], i, j) { assert FallingAt(joins, i, j); }
      NoneEarlier(joins[..n], k);
    }
  }

  // ---------- compaction ----------

  /** Whether root `j` survives: a class large enough or on the border, and not empty. */
  ghost predicate Kept(merged: seq<nat>, border: seq<bool>, limit: nat, j: nat) {
    j < |merged| && j < |border| && merged[j] != 0 && (merged[j] >= limit || border[j])
  }

  /** The compaction loop before index `i`: survivors below `i` are numbered 1..count-1 in order, `from` being the way
      back, and their sizes have moved down; what is not kept went to the background. */
  ghost predicate Compacting(merged: seq<nat>, border: seq<bool>, limit: nat, ids: seq<nat>, counted: set<nat>, rep: seq<nat>,
    sizes: seq<nat>, remaps: seq<nat>, from: seq<nat>, i: nat)
  {
    && |sizes| == |merged| == |remaps| == |rep| && 1 <= i <= |merged| && 1 <= |from| <= i
    && remaps[0] == 0 && sizes[0] == |Background(ids, counted, rep, remaps, i)|
    && (forall j | i <= j < |merged| :: sizes[j] == merged[j] && remaps[j] == 0)
    && (forall j | 1 <= j < i :: Renumbered(merged, border, limit, remaps, from, j))
    && (forall k | 1 <= k < |from| :: Survivor(merged, border, limit, sizes, remaps, from, i, k))
    && (forall k, l :: RisingAt(from, k, l))
  }

  ghost predicate RisingAt(from: seq<nat>, k: int, l: int) {
    1 <= k < l < |from| ==> from[k] < from[l]
  }

  ghost predicate Renumbered(merged: seq<nat>, border: seq<bool>, limit: nat, remaps: seq<nat>, from: seq<nat>, j: nat) {
    && j < |remaps| && remaps[j] < |from|
    && (remaps[j] != 0 <==> Kept(merged, border, limit, j)) && (remaps[j] != 0 ==> from[remaps[j]] == j)
  }

  ghost predicate Survivor(merged: seq<nat>, border: seq<bool>, limit: nat, sizes: seq<nat>, remaps: seq<nat>, from: seq<nat>, i: nat, k: nat) {
    && k < |from| && k < |sizes| && 1 <= from[k] < i && from[k] < |merged| && from[k] < |remaps|
    && Kept(merged, border, limit, from[k]) && remaps[from[k]] == k && sizes[k] == merged[from[k]]
  }

  /** Counted voxels of classes below `i` that do not survive. */
  ghost function Background(ids: seq<nat>, counted: set<nat>, rep: seq<nat>, remaps: seq<nat>, i: nat): (s: set<nat>) {
    set v | v in counted && v < |ids| && ids[v] < |rep| && rep[ids[v]] < i && rep[ids[v]] < |remaps| && remaps[rep[ids[v]]] == 0
  }

  lemma BackgroundNext(merged: seq<nat>, ids: seq<nat>, counted: set<nat>, rep: seq<nat>, remaps: seq<nat>, i: nat)
    requires SizesOf(merged, ids, counted, rep) && i < |rep| == |remaps| && remaps[i] == 0
    ensures |Background(ids, counted, rep, remaps, i + 1)| == |Background(ids, counted, rep, remaps, i)| + merged[i]
  {
    var more := VoxelsOf(ids, counted, rep, i);
    assert Background(ids, counted, rep, remaps, i + 1) == Background(ids, counted, rep, remaps, i) + more;
    assert Background(ids, counted, rep, remaps, i) !! more;
  }

  lemma BackgroundKept(ids: seq<nat>, counted: set<nat>, rep: seq<nat>, remaps: seq<nat>, i: nat, k: nat)
    requires i < |remaps| && k != 0
    ensures Background(ids, counted, rep, remaps[i := k], i + 1) == Background(ids, counted, rep, remaps, i)
  {
  }

  /** Root `i` survives as number |from|. */
  lemma CompactKeep(merged: seq<nat>, border: seq<bool>, limit: nat, ids: seq<nat>, counted: set<nat>, rep: seq<nat>,
    sizes: seq<nat>, remaps: seq<nat>, from: seq<nat>, i: nat)
    requires Compacting(merged, border, limit, ids, counted, rep, sizes, remaps, from, i)
    requires i < |merged| && Kept(merged, border, limit, i)
    ensures Compacting(merged, border, limit, ids, counted, rep, sizes[|from| := sizes[i]], remaps[i := |from|], from + [i], i + 1)
  {
    BackgroundKept(ids, counted, rep, remaps, i, |from|);
    var sizes', remaps', from' := sizes[|from| := sizes[i]], remaps[i := |from|], from + [i];
    var n := i + 1;
    forall j | 1 <= j < i + 1 ensures Renumbered(merged, border, limit, remaps', from', j) {
      if j < i { assert Renumbered(merged, border, limit, remaps, from, j); }
    }
    forall k | 1 <= k < |from'| ensures Survivor(merged, border, limit, sizes', remaps', from', n, k) {
      if k < |from| { assert Survivor(merged, border, limit, sizes, remaps, from, i, k); }
    }
    forall k, l ensures RisingAt(from', k, l) {
      assert RisingAt(from, k, l);
      if 1 <= k < |from| { assert Survivor(merged, border, limit, sizes, remaps, from, i, k); }
    }
  }

  /** Root `i`, not empty, is too small: its voxels become background. */
  lemma CompactDrop(merged: seq<nat>, border: seq<bool>, limit: nat, ids: seq<nat>, counted: set<nat>, rep: seq<nat>,
    sizes: seq<nat>, remaps: seq<nat>, from: seq<nat>, i: nat)
    requires Compacting(merged, border, limit, ids, counted, rep, sizes, remaps, from, i)
    requires SizesOf(merged, ids, counted, rep) && |border| == |merged|
    requires i < |merged| && !Kept(merged, border, limit, i)
    ensures Compacting(merged, border, limit, ids, counted, rep, sizes[0 := sizes[0] + sizes[i]][i := 0], remaps, from, i + 1)
    ensures merged[i] == 0 ==> sizes[0 := sizes[0] + sizes[i]][i := 0] == sizes
    ensures remaps[i := 0] == remaps
  {
    BackgroundNext(merged, ids, counted, rep, remaps, i);
    var sizes' := sizes[0 := sizes[0] + sizes[i]][i := 0];
    var n := i + 1;
    forall j | 1 <= j < i + 1 ensures Renumbered(merged, border, limit, remaps, from, j) {
      if j < i { assert Renumbered(merged, border, limit, remaps, from, j); }
    }
    forall k | 1 <= k < |from| ensures Survivor(merged, border, limit, sizes', remaps, from, n, k) {
      assert Survivor(merged, border, limit, sizes, remaps, from, i, k);
    }
  }

  /** The numbers after relabelling. */
  function Relabel(ids: seq<nat>, rep: seq<nat>, remaps: seq<nat>): (r: seq<nat>) {
    seq(|ids|, i requires 0 <= i < |ids| =>
      if ids[i] < |rep| && rep[ids[i]] < |remaps| then remaps[rep[ids[i]]] else 0)
  }

  /** Conservation: after compaction and relabelling `sizes[k]` is the number of counted voxels with label `k`, for
      the background too, and the labels in use are 0 and survivors' numbers, each of them used. */
  lemma VoxelsConserved(merged: seq<nat>, border: seq<bool>, limit: nat, ids: seq<nat>, counted: set<nat>, rep: seq<nat>,
    sizes: seq<nat>, remaps: seq<nat>, from: seq<nat>)
    requires IsPartition(rep) && SizesOf(merged, ids, counted, rep)
    requires Compacting(merged, border, limit, ids, counted, rep, sizes, remaps, from, |merged|)
    requires forall l | l in ids :: l < |rep|
    ensures var labels := Relabel(ids, rep, remaps);
      && (forall k: nat | k < |from| :: sizes[k] == |Labelled(labels, counted, k)|)
      && (forall l | l in labels :: l < |from|)
      && (forall k: nat | 1 <= k < |from| :: k in labels)
  {
    var labels := Relabel(ids, rep, remaps);
    forall j: nat | j < |remaps| ensures remaps[j] < |from| {
      if j > 0 { assert Renumbered(merged, border, limit, remaps, from, j); }
    }
    forall k: nat | k < |from| ensures sizes[k] == |Labelled(labels, counted, k)| && (k >= 1 ==> k in labels) {
      if k == 0 {
        forall v: nat | v < |ids| ensures ids[v] < |rep| && rep[ids[v]] < |rep| { assert ids[v] in ids; }
        assert Labelled(labels, counted, 0) == Background(ids, counted, rep, remaps, |merged|);
      } else {
        SurvivorVoxels(merged, border, limit, ids, counted, rep, sizes, remaps, from, k);
      }
    }
  }

  lemma SurvivorVoxels(merged: seq<nat>, border: seq<bool>, limit: nat, ids: seq<nat>, counted: set<nat>, rep: seq<nat>,
    sizes: seq<nat>, remaps: seq<nat>, from: seq<nat>, k: nat)
    requires IsPartition(rep) && SizesOf(merged, ids, counted, rep)
    requires Compacting(merged, border, limit, ids, counted, rep, sizes, remaps, from, |merged|)
    requires forall l | l in ids :: l < |rep|
    requires 1 <= k < |from|
    ensures sizes[k] == |Labelled(Relabel(ids, rep, remaps), counted, k)|
    ensures k in Relabel(ids, rep, remaps)
  {
    var labels := Relabel(ids, rep, remaps);
    assert Survivor(merged, border, limit, sizes, remaps, from, |merged|, k);
    var j := from[k];
    forall v | v in Labelled(labels, counted, k) ensures v in VoxelsOf(ids, counted, rep, j) {
      assert ids[v] in ids;
      assert Renumbered(merged, border, limit, remaps, from, rep[ids[v]]);
    }
    assert Labelled(labels, counted, k) == VoxelsOf(ids, counted, rep, j);
    var v :| v in VoxelsOf(ids, counted, rep, j);
    assert labels[v] == k;
  }

  // ---------- the dendrogram ----------

  /** A graph edge both of whose regions survive, under their new numbers. */
  ghost predicate Live(remaps: seq<nat>, e: Weighted) {
    e.a < |remaps| && e.b < |remaps| && remaps[e.a] != 0 && remaps[e.b] != 0
  }

  ghost function Renamed(remaps: seq<nat>, e: Weighted): (r: Edge)
    requires Live(remaps, e)
  {
    (remaps[e.a], remaps[e.b])
  }

  /** The surviving edges from position `i` on that weigh at least `t`; all of them without a threshold. */
  ghost function LiveEdges(graph: seq<Weighted>, remaps: seq<nat>, i: nat, t: Option<real>): (s: set<Edge>) {
    set k | i <= k < |graph| && Passes(graph[k], t) && Live(remaps, graph[k]) :: Renamed(remaps, graph[k])
  }

  /** Its entry in the dendrogram. */
  ghost function Entry(remaps: seq<nat>, e: Weighted): (r: Weighted)
    requires Live(remaps, e)
  {
    Weighted(e.weight, remaps[e.a], remaps[e.b])
  }

  ghost function Ends(e: Weighted): (r: Edge) {
    (e.a, e.b)
  }

  ghost function TreeEdges(dendr: seq<Weighted>, t: Option<real>): (s: set<Edge>) {
    set k | 0 <= k < |dendr| && Passes(dendr[k], t) :: Ends(dendr[k])
  }

  ghost predicate Passes(e: Weighted, t: Option<real>) {
    t.Some? ==> e.weight >= t.value
  }

  ghost predicate SameConnected(es: set<Edge>, fs: set<Edge>) {
    forall u, v :: Connected(es, u, v) <==> Connected(fs, u, v)
  }

  /** All tree edges but one. */
  ghost function Without(dendr: seq<Weighted>, k: nat): (s: set<Edge>) {
    set j | 0 <= j < |dendr| && j != k :: Ends(dendr[j])
  }

  /** Every tree edge is a bridge: without it its ends fall apart. */
  ghost predicate Forest(dendr: seq<Weighted>) {
    forall k: nat {:trigger Bridge(dendr, k)} | k < |dendr| :: Bridge(dendr, k)
  }

  ghost predicate Bridge(dendr: seq<Weighted>, k: nat)
    requires k < |dendr|
  {
    !Connected(Without(dendr, k), dendr[k].a, dendr[k].b)
  }

  /** The dendrogram after the edges from position `i` on. */
  ghost predicate Spanning(rep: seq<nat>, dendr: seq<Weighted>, graph: seq<Weighted>, remaps: seq<nat>, i: nat) {
    && i <= |graph| && Rising(graph) && IsPartition(rep) && (forall j | 0 <= j < |remaps| :: remaps[j] < |rep|)
    && Represents(rep, TreeEdges(dendr, None)) && Represents(rep, LiveEdges(graph, remaps, i, None))
    && (forall t {:trigger ThresholdOk(dendr, graph, remaps, i, t)} :: ThresholdOk(dendr, graph, remaps, i, t))
    && (forall k, j | 0 <= k < |dendr| && 0 <= j < i :: HeavierThan(dendr, graph, k, j))
    && Forest(dendr)
  }

  ghost predicate ThresholdOk(dendr: seq<Weighted>, graph: seq<Weighted>, remaps: seq<nat>, i: nat, t: real) {
    SameConnected(TreeEdges(dendr, Some(t)), LiveEdges(graph, remaps, i, Some(t)))
  }

  ghost predicate HeavierThan(dendr: seq<Weighted>, graph: seq<Weighted>, k: int, j: int) {
    0 <= k < |dendr| && 0 <= j < |graph| ==> dendr[k].weight >= graph[j].weight
  }

  // The positions of the graph edges that make up the dendrogram.

  /** A surviving edge whose ends no edges at later positions, heavier ones, connect. */
  ghost predicate Joining(graph: seq<Weighted>, remaps: seq<nat>, k: nat)
    requires k < |graph|
  {
    Live(remaps, graph[k]) && !Connected(LiveEdges(graph, remaps, k + 1, None), remaps[graph[k].a], remaps[graph[k].b])
  }

  ghost predicate PickedAt(dendr: seq<Weighted>, graph: seq<Weighted>, remaps: seq<nat>, k: nat, j: nat) {
    j < |dendr| && k < |graph| && Live(remaps, graph[k]) && dendr[j] == Entry(remaps, graph[k])
  }

  /** The dendrogram lists the edges at the positions `picked`; from position `i` on, these are all the joining ones. */
  ghost predicate Picked(dendr: seq<Weighted>, picked: seq<nat>, graph: seq<Weighted>, remaps: seq<nat>, i: nat) {
    && i <= |graph| && |picked| == |dendr| && Falling(picked) && Within(picked, i, |graph|)
    && (forall j | 0 <= j < |picked| :: PickedAt(dendr, graph, remaps, picked[j], j))
    && (forall k: nat {:trigger Joining(graph, remaps, k)} | i <= k < |graph| :: k in picked <==> Joining(graph, remaps, k))
  }

  lemma PickNext(dendr: seq<Weighted>, picked: seq<nat>, graph: seq<Weighted>, remaps: seq<nat>, i: nat)
    requires Picked(dendr, picked, graph, remaps, i + 1) && i < |graph|
    ensures !Joining(graph, remaps, i) ==> Picked(dendr, picked, graph, remaps, i)
    ensures Joining(graph, remaps, i) ==> Picked(dendr + [Entry(remaps, graph[i])], picked + [i], graph, remaps, i)
  {
    hide Joining;
    if Joining(graph, remaps, i) {
      JoiningLive(graph, remaps, i);
      var grown, more := dendr + [Entry(remaps, graph[i])], picked + [i];
      forall a, b ensures FallingAt(more, a, b) { assert FallingAt(picked, a, b); assert 0 <= a < |picked| ==> picked[a] in picked; }
      forall j | 0 <= j < |more| ensures PickedAt(grown, graph, remaps, more[j], j) {
        if j < |picked| { assert PickedAt(dendr, graph, remaps, picked[j], j); }
      }
    }
  }

  lemma JoiningLive(graph: seq<Weighted>, remaps: seq<nat>, k: nat)
    requires k < |graph| && Joining(graph, remaps, k)
    ensures Live(remaps, graph[k])
  {
  }

  /** The union-find tells which edges are joining. */
  lemma JoiningByRoots(rep: seq<nat>, dendr: seq<Weighted>, graph: seq<Weighted>, remaps: seq<nat>, i: nat)
    requires Spanning(rep, dendr, graph, remaps, i + 1) && i < |graph| && Live(remaps, graph[i])
    ensures remaps[graph[i].a] < |rep| && remaps[graph[i].b] < |rep|
    ensures Joining(graph, remaps, i) <==> rep[remaps[graph[i].a]] != rep[remaps[graph[i].b]]
  {
    hide Connected, LiveEdges, TreeEdges, Forest, ThresholdOk;
  }

  lemma AddBoth(es: set<Edge>, fs: set<Edge>, x: nat, y: nat)
    requires SameConnected(es, fs)
    ensures SameConnected(es + {(x, y)}, fs + {(x, y)})
  {
    forall u: nat, v: nat ensures Connected(es + {(x, y)}, u, v) <==> Connected(fs + {(x, y)}, u, v) {
      ConnectedAdd(es, x, y, u, v);
      ConnectedAdd(fs, x, y, u, v);
      hide Connected;
      assert JoinedBy(es, x, y, u, v) <==> JoinedBy(fs, x, y, u, v);
    }
  }

  lemma AddRedundant(es: set<Edge>, fs: set<Edge>, x: nat, y: nat)
    requires SameConnected(es, fs) && Connected(fs, x, y)
    ensures SameConnected(es, fs + {(x, y)})
  {
    forall u: nat, v: nat ensures Connected(es, u, v) <==> Connected(fs + {(x, y)}, u, v) {
      ConnectedAdd(fs, x, y, u, v);
      assert Connected(es, u, v) <==> Connected(fs, u, v);
      if Connected(fs, u, x) && Connected(fs, y, v) {
        ReachTrans(Both(fs), u, x, y);
        ReachTrans(Both(fs), u, y, v);
      }
      if Connected(fs, u, y) && Connected(fs, x, v) {
        ConnectedSym(fs, x, y);
        ReachTrans(Both(fs), u, y, x);
        ReachTrans(Both(fs), u, x, v);
      }
    }
  }

  /** An edge between two separate parts keeps a forest a forest. */
  lemma ForestGrows(dendr: seq<Weighted>, e: Weighted)
    requires Forest(dendr) && !Connected(TreeEdges(dendr, None), e.a, e.b)
    ensures Forest(dendr + [e])
  {
    var grown, all := dendr + [e], TreeEdges(dendr, None);
    forall k: nat | k < |grown| ensures Bridge(grown, k) {
      if k == |dendr| {
        WithoutLast(dendr, e);
      } else {
        BridgeStays(dendr, e, k);
      }
    }
  }

  lemma WithoutLast(dendr: seq<Weighted>, e: Weighted)
    ensures Without(dendr + [e], |dendr|) == TreeEdges(dendr, None)
  {
    var grown := dendr + [e];
    forall f | f in TreeEdges(dendr, None) ensures f in Without(grown, |dendr|) {
      var k :| 0 <= k < |dendr| && f == Ends(dendr[k]);
      assert f == Ends(grown[k]);
    }
    forall f | f in Without(grown, |dendr|) ensures f in TreeEdges(dendr, None) {
      var k :| 0 <= k < |grown| && k != |dendr| && f == Ends(grown[k]);
      assert f == Ends(dendr[k]);
    }
  }

  lemma WithoutGrown(dendr: seq<Weighted>, e: Weighted, k: nat)
    requires k < |dendr|
    ensures Without(dendr + [e], k) == Without(dendr, k) + {Ends(e)}
  {
    var grown := dendr + [e];
    forall f | f in Without(dendr, k) + {Ends(e)} ensures f in Without(grown, k) {
      if f == Ends(e) {
        assert f == Ends(grown[|dendr|]);
      } else {
        var j :| 0 <= j < |dendr| && j != k && f == Ends(dendr[j]);
        assert f == Ends(grown[j]);
      }
    }
    forall f | f in Without(grown, k) ensures f in Without(dendr, k) + {Ends(e)} {
      var j :| 0 <= j < |grown| && j != k && f == Ends(grown[j]);
      if j < |dendr| { assert f == Ends(dendr[j]); }
    }
  }

  lemma TreeGrown(dendr: seq<Weighted>, e: Weighted, t: Option<real>)
    ensures TreeEdges(dendr + [e], t) == if Passes(e, t) then TreeEdges(dendr, t) + {Ends(e)} else TreeEdges(dendr, t)
  {
    var grown := dendr + [e];
    forall f | f in TreeEdges(dendr, t) ensures f in TreeEdges(grown, t) {
      var j :| 0 <= j < |dendr| && Passes(dendr[j], t) && f == Ends(dendr[j]);
      assert grown[j] == dendr[j];
    }
    if Passes(e, t) {
      assert grown[|dendr|] == e;
      assert Ends(e) in TreeEdges(grown, t);
    }
    forall f | f in TreeEdges(grown, t) ensures f in TreeEdges(dendr, t) || (Passes(e, t) && f == Ends(e)) {
      var j :| 0 <= j < |grown| && Passes(grown[j], t) && f == Ends(grown[j]);
      if j < |dendr| { assert grown[j] == dendr[j]; }
    }
  }

  lemma LiveGrown(graph: seq<Weighted>, remaps: seq<nat>, i: nat, t: Option<real>)
    requires i < |graph|
    ensures LiveEdges(graph, remaps, i, t) ==
      if Passes(graph[i], t) && Live(remaps, graph[i]) then LiveEdges(graph, remaps, i + 1, t) + {Renamed(remaps, graph[i])}
      else LiveEdges(graph, remaps, i + 1, t)
  {
  }

  lemma BridgeStays(dendr: seq<Weighted>, e: Weighted, k: nat)
    requires k < |dendr| && Bridge(dendr, k) && !Connected(TreeEdges(dendr, None), e.a, e.b)
    ensures Bridge(dendr + [e], k)
  {
    var all, w := TreeEdges(dendr, None), Without(dendr, k);
    var a, b := dendr[k].a, dendr[k].b;
    WithoutGrown(dendr, e, k);
    ConnectedAdd(w, e.a, e.b, a, b);
    assert (a, b) in all;
    ReachEdge(Both(all), a, b);
    ReachEdge(Both(all), b, a);
    if Connected(w, a, e.a) && Connected(w, e.b, b) {
      Bypass(w, all, a, b, e.a, e.b);
    }
    if Connected(w, a, e.b) && Connected(w, e.a, b) {
      Bypass(w, all, a, b, e.b, e.a);
      ConnectedSym(all, e.b, e.a);
    }
  }

  /** If x - a and b - y are joined, and a - b too, so are x and y. */
  lemma Bypass(w: set<Edge>, all: set<Edge>, a: nat, b: nat, x: nat, y: nat)
    requires w <= all && Connected(all, a, b) && Connected(w, a, x) && Connected(w, y, b)
    ensures Connected(all, x, y)
  {
    ConnectedMono(w, all, a, x);
    ConnectedMono(w, all, y, b);
    ConnectedSym(all, a, x);
    ConnectedSym(all, y, b);
    ReachTrans(Both(all), x, a, b);
    ReachTrans(Both(all), x, b, y);
  }

  /** A threshold at or below the lightest edge lets everything pass. */
  lemma AllPass(dendr: seq<Weighted>, graph: seq<Weighted>, remaps: seq<nat>, i: nat, t: real)
    requires Rising(graph) && i < |graph| && t <= graph[i].weight
    requires forall k, j | 0 <= k < |dendr| && 0 <= j < i + 1 :: HeavierThan(dendr, graph, k, j)
    ensures TreeEdges(dendr, Some(t)) == TreeEdges(dendr, None)
    ensures LiveEdges(graph, remaps, i + 1, Some(t)) == LiveEdges(graph, remaps, i + 1, None)
  {
    forall k | 0 <= k < |dendr| ensures Passes(dendr[k], Some(t)) { assert HeavierThan(dendr, graph, k, i); }
    forall k | i + 1 <= k < |graph| ensures Passes(graph[k], Some(t)) { assert InOrder(graph, i, k); }
    forall f | f in TreeEdges(dendr, None) ensures f in TreeEdges(dendr, Some(t)) {
      var j :| 0 <= j < |dendr| && f == Ends(dendr[j]);
      assert Passes(dendr[j], Some(t));
    }
    var n := i + 1;
    forall f | f in LiveEdges(graph, remaps, n, None) ensures f in LiveEdges(graph, remaps, n, Some(t)) {
      var j :| i + 1 <= j < |graph| && Live(remaps, graph[j]) && f == Renamed(remaps, graph[j]);
      assert Passes(graph[j], Some(t));
    }
  }

  /** The tree grows by the live edge `i`. */
  lemma SpanningStep(rep: seq<nat>, dendr: seq<Weighted>, graph: seq<Weighted>, remaps: seq<nat>, i: nat, a: nat, b: nat, w: nat)
    requires Spanning(rep, dendr, graph, remaps, i + 1) && i < |graph| && Live(remaps, graph[i])
    requires a == remaps[graph[i].a] && b == remaps[graph[i].b] && a < |rep| && b < |rep| && rep[a] != rep[b]
    requires w == rep[a] || w == rep[b]
    ensures Spanning(Merge(rep, rep[a], rep[b], w), dendr + [Weighted(graph[i].weight, a, b)], graph, remaps, i)
  {
    hide SameConnected, TreeEdges, LiveEdges, Connected, Forest, HeavierThan, Passes;
    var e := Weighted(graph[i].weight, a, b);
    var grown := dendr + [e];
    TreeGrown(dendr, e, None);
    LiveGrown(graph, remaps, i, None);
    EverythingPasses(e);
    EverythingPasses(graph[i]);
    MergeRepresents(rep, TreeEdges(dendr, None), a, b, w);
    MergeRepresents(rep, LiveEdges(graph, remaps, i + 1, None), a, b, w);
    forall t ensures ThresholdOk(grown, graph, remaps, i, t) {
      assert ThresholdOk(dendr, graph, remaps, i + 1, t);
      ThresholdStep(dendr, graph, remaps, i, e, t);
    }
    StillHeavier(dendr, graph, i, e, grown);
    assert !Connected(TreeEdges(dendr, None), a, b);
    ForestGrows(dendr, e);
  }

  lemma EverythingPasses(e: Weighted)
    ensures Passes(e, None)
  {
  }

  lemma ThresholdStep(dendr: seq<Weighted>, graph: seq<Weighted>, remaps: seq<nat>, i: nat, e: Weighted, t: real)
    requires i < |graph| && Live(remaps, graph[i]) && Ends(e) == Renamed(remaps, graph[i]) && e.weight == graph[i].weight
    requires ThresholdOk(dendr, graph, remaps, i + 1, t)
    ensures ThresholdOk(dendr + [e], graph, remaps, i, t)
  {
    hide SameConnected, TreeEdges, LiveEdges, Connected;
    TreeGrown(dendr, e, Some(t));
    LiveGrown(graph, remaps, i, Some(t));
    AddBoth(TreeEdges(dendr, Some(t)), LiveEdges(graph, remaps, i + 1, Some(t)), e.a, e.b);
  }

  lemma StillHeavier(dendr: seq<Weighted>, graph: seq<Weighted>, i: nat, e: Weighted, grown: seq<Weighted>)
    requires Rising(graph) && i < |graph| && e.weight == graph[i].weight && grown == dendr + [e]
    requires forall k, j | 0 <= k < |dendr| && 0 <= j < i + 1 :: HeavierThan(dendr, graph, k, j)
    ensures forall k, j | 0 <= k < |grown| && 0 <= j < i :: HeavierThan(grown, graph, k, j)
  {
    forall k, j | 0 <= k < |grown| && 0 <= j < i ensures HeavierThan(grown, graph, k, j) {
      if k < |dendr| { assert HeavierThan(dendr, graph, k, j); } else { assert InOrder(graph, j, i); }
    }
  }

  /** An edge within one tree is redundant at every threshold that lets it pass. */
  lemma SpanningSame(rep: seq<nat>, dendr: seq<Weighted>, graph: seq<Weighted>, remaps: seq<nat>, i: nat, a: nat, b: nat)
    requires Spanning(rep, dendr, graph, remaps, i + 1) && i < |graph| && Live(remaps, graph[i])
    requires a == remaps[graph[i].a] && b == remaps[graph[i].b] && a < |rep| && b < |rep| && rep[a] == rep[b]
    ensures Spanning(rep, dendr, graph, remaps, i)
  {
    hide SameConnected, TreeEdges, LiveEdges, Connected, Forest, HeavierThan, Passes;
    LiveGrown(graph, remaps, i, None);
    EverythingPasses(graph[i]);
    SameClassRepresents(rep, LiveEdges(graph, remaps, i + 1, None), a, b);
    assert Connected(LiveEdges(graph, remaps, i + 1, None), a, b);
    forall t ensures ThresholdOk(dendr, graph, remaps, i, t) {
      assert ThresholdOk(dendr, graph, remaps, i + 1, t);
      ThresholdSame(dendr, graph, remaps, i, t);
    }
  }

  lemma ThresholdSame(dendr: seq<Weighted>, graph: seq<Weighted>, remaps: seq<nat>, i: nat, t: real)
    requires Rising(graph) && i < |graph| && Live(remaps, graph[i])
    requires ThresholdOk(dendr, graph, remaps, i + 1, t)
    requires forall k, j | 0 <= k < |dendr| && 0 <= j < i + 1 :: HeavierThan(dendr, graph, k, j)
    requires Connected(LiveEdges(graph, remaps, i + 1, None), remaps[graph[i].a], remaps[graph[i].b])
    ensures ThresholdOk(dendr, graph, remaps, i, t)
  {
    hide TreeEdges, LiveEdges, Connected, SameConnected;
    LiveGrown(graph, remaps, i, Some(t));
    if t <= graph[i].weight {
      AllPass(dendr, graph, remaps, i, t);
      AddRedundant(TreeEdges(dendr, Some(t)), LiveEdges(graph, remaps, i + 1, Some(t)), remaps[graph[i].a], remaps[graph[i].b]);
    }
  }

  /** An edge at a dropped or absorbed region is not looked at. */
  lemma SpanningSkip(rep: seq<nat>, dendr: seq<Weighted>, graph: seq<Weighted>, remaps: seq<nat>, i: nat)
    requires Spanning(rep, dendr, graph, remaps, i + 1) && i < |graph| && !Live(remaps, graph[i])
    ensures Spanning(rep, dendr, graph, remaps, i)
  {
    hide SameConnected, TreeEdges, LiveEdges, Connected, Forest, Represents;
    LiveGrown(graph, remaps, i, None);
    forall t ensures ThresholdOk(dendr, graph, remaps, i, t) {
      assert ThresholdOk(dendr, graph, remaps, i + 1, t);
      LiveGrown(graph, remaps, i, Some(t));
    }
  }

  lemma SpanningStart(rep: seq<nat>, graph: seq<Weighted>, remaps: seq<nat>)
    requires Rising(graph) && rep == Identity(|rep|) && forall j | 0 <= j < |remaps| :: remaps[j] < |rep|
    ensures Spanning(rep, [], graph, remaps, |graph|)
  {
    IdentityRepresents(|rep|);
    assert TreeEdges([], None) == {} && LiveEdges(graph, remaps, |graph|, None) == {};
    forall t ensures ThresholdOk([], graph, remaps, |graph|, t) {
      assert TreeEdges([], Some(t)) == {} && LiveEdges(graph, remaps, |graph|, Some(t)) == {};
    }
  }

  /** A maximum spanning forest of the surviving edges that weigh at least `low`: a forest of such edges, the heaviest first,
      that at every threshold from `low` on connects exactly what the surviving graph edges connect. */
  ghost predicate MaximumSpanningForest(dendr: seq<Weighted>, graph: seq<Weighted>, remaps: seq<nat>, low: Option<real>) {
    && Forest(dendr) && (forall e | e in dendr :: OfGraph(graph, remaps, low, e)) && (forall i, j :: Heavier(dendr, i, j))
    && (forall t {:trigger ThresholdOk(dendr, graph, remaps, 0, t)} | low.None? || t >= low.value :: ThresholdOk(dendr, graph, remaps, 0, t))
  }

  ghost predicate OfGraph(graph: seq<Weighted>, remaps: seq<nat>, low: Option<real>, e: Weighted) {
    exists k :: 0 <= k < |graph| && Passes(graph[k], low) && Live(remaps, graph[k]) && e == Entry(remaps, graph[k])
  }

  ghost predicate Heavier(dendr: seq<Weighted>, i: int, j: int) {
    0 <= i < j < |dendr| ==> dendr[i].weight >= dendr[j].weight
  }

  /** It lists just the edges that no heavier ones make redundant, at the positions `picked`, in that order. */
  ghost predicate Kruskal(dendr: seq<Weighted>, picked: seq<nat>, graph: seq<Weighted>, remaps: seq<nat>, low: Option<real>) {
    && |picked| == |dendr| && Falling(picked)
    && (forall j | 0 <= j < |picked| :: PickedAt(dendr, graph, remaps, picked[j], j))
    && (forall k: nat {:trigger Joining(graph, remaps, k)} | k < |graph| :: k in picked <==> Passes(graph[k], low) && Joining(graph, remaps, k))
  }

  lemma SpanningDone(rep: seq<nat>, dendr: seq<Weighted>, picked: seq<nat>, graph: seq<Weighted>, remaps: seq<nat>, i: nat, low: Option<real>)
    requires Spanning(rep, dendr, graph, remaps, i) && Picked(dendr, picked, graph, remaps, i)
    requires i == 0 || (low.Some? && graph[i - 1].weight < low.value)
    requires forall k | i <= k < |graph| :: Passes(graph[k], low)
    ensures MaximumSpanningForest(dendr, graph, remaps, low) && Kruskal(dendr, picked, graph, remaps, low)
  {
    forall t | low.None? || t >= low.value ensures ThresholdOk(dendr, graph, remaps, 0, t) {
      assert ThresholdOk(dendr, graph, remaps, i, t);
      forall k | 0 <= k < i ensures !Passes(graph[k], Some(t)) { assert InOrder(graph, k, i - 1); }
      assert LiveEdges(graph, remaps, 0, Some(t)) == LiveEdges(graph, remaps, i, Some(t));
    }
    hide Spanning, Joining, ThresholdOk, Connected;
    assert Rising(graph) by { SpanningRises(rep, dendr, graph, remaps, i); }
    PickedEdges(dendr, picked, graph, remaps, i, low);
    forall k: nat | k < i ensures !Passes(graph[k], low) { assert InOrder(graph, k, i - 1); }
  }

  lemma SpanningRises(rep: seq<nat>, dendr: seq<Weighted>, graph: seq<Weighted>, remaps: seq<nat>, i: nat)
    requires Spanning(rep, dendr, graph, remaps, i)
    ensures Rising(graph) && Forest(dendr)
  {
  }

  lemma PickedEdges(dendr: seq<Weighted>, picked: seq<nat>, graph: seq<Weighted>, remaps: seq<nat>, i: nat, low: Option<real>)
    requires Picked(dendr, picked, graph, remaps, i) && Rising(graph)
    requires forall k | i <= k < |graph| :: Passes(graph[k], low)
    ensures forall e | e in dendr :: OfGraph(graph, remaps, low, e)
    ensures forall i, j :: Heavier(dendr, i, j)
  {
    hide Joining;
    forall e | e in dendr ensures OfGraph(graph, remaps, low, e) {
      var j :| 0 <= j < |dendr| && dendr[j] == e;
      assert PickedAt(dendr, graph, remaps, picked[j], j);
      assert picked[j] in picked;
    }
    forall a, b ensures Heavier(dendr, a, b) {
      if 0 <= a < b < |dendr| {
        assert FallingAt(picked, a, b) && PickedAt(dendr, graph, remaps, picked[a], a) && PickedAt(dendr, graph, remaps, picked[b], b);
        assert InOrder(graph, picked[b], picked[a]);
      }
    }
  }

  // ---------- counting what is left ----------

  /** Roots other than the background that own no counted voxel. */
  ghost function EmptyRoots(rep: seq<nat>, merged: seq<nat>, i: nat): (s: set<nat>) {
    set r | 1 <= r < i && r < |rep| && r < |merged| && rep[r] == r && merged[r] == 0
  }

  ghost function RootsFrom(rep: seq<nat>, i: nat): (s: set<nat>) {
    set r | i <= r < |rep| && rep[r] == r
  }

  /** The counters of the compaction loop before index `i`: `next` was the number of classes and lost one for every
      class dropped, `count` is one more than the classes kept. */
  ghost predicate CountersAt(rep: seq<nat>, merged: seq<nat>, i: nat, next: int, count: int) {
    next == count + |RootsFrom(rep, i)| + |EmptyRoots(rep, merged, i)|
  }

  lemma CountersStart(rep: seq<nat>, merged: seq<nat>)
    requires |rep| > 0 && rep[0] == 0
    ensures CountersAt(rep, merged, 1, |Roots(rep)|, 1)
  {
    assert EmptyRoots(rep, merged, 1) == {};
    assert Roots(rep) == RootsFrom(rep, 1) + {0};
  }

  lemma RootsNext(rep: seq<nat>, i: nat)
    requires i < |rep|
    ensures |RootsFrom(rep, i)| == |RootsFrom(rep, i + 1)| + if rep[i] == i then 1 else 0
  {
    var s, r := RootsFrom(rep, i), RootsFrom(rep, i + 1);
    if rep[i] == i {
      assert s == r + {i};
    } else {
      assert s == r;
    }
  }

  lemma EmptyNext(rep: seq<nat>, merged: seq<nat>, i: nat)
    requires 1 <= i < |rep| && i < |merged|
    ensures |EmptyRoots(rep, merged, i + 1)| == |EmptyRoots(rep, merged, i)| + if rep[i] == i && merged[i] == 0 then 1 else 0
  {
    var s, r := EmptyRoots(rep, merged, i + 1), EmptyRoots(rep, merged, i);
    var more: set<nat> := if rep[i] == i && merged[i] == 0 then {i} else {};
    assert s == r + more && r !! more;
  }

  lemma CountersNext(ids: seq<nat>, counted: set<nat>, rep: seq<nat>, merged: seq<nat>, i: nat, next: int, count: int)
    requires IsPartition(rep) && SizesOf(merged, ids, counted, rep) && 1 <= i < |rep| && CountersAt(rep, merged, i, next, count)
    ensures merged[i] == 0 ==> CountersAt(rep, merged, i + 1, next, count)
    ensures merged[i] != 0 ==> CountersAt(rep, merged, i + 1, next - 1, count) && CountersAt(rep, merged, i + 1, next, count + 1)
  {
    hide EmptyRoots, RootsFrom, VoxelsOf;
    RootsNext(rep, i);
    EmptyNext(rep, merged, i);
    if rep[i] != i { NotARoot(ids, counted, rep, merged, i); }
  }

  lemma NotARoot(ids: seq<nat>, counted: set<nat>, rep: seq<nat>, merged: seq<nat>, i: nat)
    requires IsPartition(rep) && SizesOf(merged, ids, counted, rep) && i < |rep| && rep[i] != i
    ensures merged[i] == 0
  {
    assert VoxelsOf(ids, counted, rep, i) == {};
  }

  lemma CountersEnd(rep: seq<nat>, merged: seq<nat>, next: int, count: int)
    requires CountersAt(rep, merged, |rep|, next, count)
    ensures next == count <==> EmptyRoots(rep, merged, |rep|) == {}
  {
    assert RootsFrom(rep, |rep|) == {};
  }

  /** A class is empty when none of its regions owns a counted voxel. */
  lemma EmptyClass(merged: seq<nat>, sizes: seq<nat>, ids: seq<nat>, counted: set<nat>, rep: seq<nat>, r: nat)
    requires SizesOf(sizes, ids, counted, Identity(|sizes|)) && SizesOf(merged, ids, counted, rep) && |rep| == |sizes|
    requires r < |rep| && rep[r] == r
    ensures merged[r] == 0 <==> forall l | 0 <= l < |rep| && rep[l] == r :: sizes[l] == 0
  {
    var all, own := VoxelsOf(ids, counted, rep, r), Identity(|sizes|);
    forall l: nat | l < |rep| && rep[l] == r && sizes[l] != 0 ensures all != {} {
      assert sizes[l] == |VoxelsOf(ids, counted, own, l)|;
      var v :| v in VoxelsOf(ids, counted, own, l);
      assert v in all;
    }
    if all != {} {
      var v :| v in all;
      assert v in VoxelsOf(ids, counted, own, ids[v]);
      assert sizes[ids[v]] == |VoxelsOf(ids, counted, own, ids[v])|;
    }
    assert merged[r] == |all|;
  }

  /** If every region owns a counted voxel, so does every class, and the two counters agree. */
  lemma NoEmptyRoots(sizes: seq<nat>, merged: seq<nat>, ids: seq<nat>, counted: set<nat>, rep: seq<nat>)
    requires SizesOf(sizes, ids, counted, Identity(|sizes|)) && SizesOf(merged, ids, counted, rep) && |rep| == |sizes|
    requires forall k | 1 <= k < |sizes| :: sizes[k] > 0
    ensures EmptyRoots(rep, merged, |rep|) == {}
  {
    forall r | 1 <= r < |rep| && rep[r] == r ensures merged[r] > 0 {
      EmptyClass(merged, sizes, ids, counted, rep, r);
    }
  }

  /** If no region does, and there is one, they differ. */
  lemma AllEmptyRoots(sizes: seq<nat>, merged: seq<nat>, ids: seq<nat>, counted: set<nat>, rep: seq<nat>)
    requires SizesOf(sizes, ids, counted, Identity(|sizes|)) && SizesOf(merged, ids, counted, rep) && |rep| == |sizes| > 1
    requires IsPartition(rep) && (forall l | 0 <= l < |rep| :: rep[l] == 0 <==> l == 0) && forall k | 0 <= k < |sizes| :: sizes[k] == 0
    ensures EmptyRoots(rep, merged, |rep|) != {}
  {
    var r := rep[1];
    EmptyClass(merged, sizes, ids, counted, rep, r);
    assert r in EmptyRoots(rep, merged, |rep|);
  }

  // ---------- the passes ----------

  /** The state the passes work on: region sizes, the region graph, border flags, renumbering, dendrogram and voxel
      labels. `counted` are the voxels that the sizes count. */
  class Segmentation {
    var sizes: seq<nat>
    var graph: seq<Weighted>
    var onBorder: seq<bool>
    var remaps: seq<nat>
    var dendr: seq<Weighted>
    var ids: seq<nat>
    ghost var counted: set<nat>

    constructor (sizes: seq<nat>, graph: seq<Weighted>, onBorder: seq<bool>, ids: seq<nat>, ghost counted: set<nat>)
      ensures this.sizes == sizes && this.graph == graph && this.onBorder == onBorder && this.ids == ids
      ensures this.counted == counted && remaps == [] && dendr == []
    {
      this.sizes, this.graph, this.onBorder, this.ids, this.counted := sizes, graph, onBorder, ids, counted;
      remaps, dendr := [], [];
    }

    /** What the earlier steps hand over. */
    ghost predicate Ready()
      reads this
    {
      && |sizes| > 0 && |onBorder| == |sizes| && Rising(graph) && RegionGraph(graph, |sizes|)
      && SizesOf(sizes, ids, counted, Identity(|sizes|))
      && forall l | l in ids :: l < |sizes|
    }

    /** One pass over the graph in falling order of weight, joining two sets when one of them is small and inside.
        `done` is the position of the lightest edge looked at, `joins` the positions of the edges joined along, in order. */
    method MergePass(trees: UnionFind, limit: nat, least: real, index: nat) returns (next: int, ghost done: nat, ghost joins: seq<nat>)
      requires Ready() && trees.Valid() && trees.State() == Classes(Identity(|sizes|), seq(|sizes|, _ => 0)) && trees.size == |sizes|
        && index == |sizes|
      requires trees.sets == |sizes|
      modifies this`sizes, this`onBorder, trees, trees.p, trees.r
      ensures trees.Valid() && next == trees.sets && done <= |graph|
      ensures done == 0 || graph[done - 1].weight < least
      ensures Merging(trees.State(), sizes, onBorder, graph, ids, counted, old(onBorder), limit, least, done, joins)
    {
      hide Merging, Consistent, SizesOf, RegionGraph;
      ghost var initial := onBorder;
      MergingStart(trees.p[..], trees.State(), trees.sets, sizes, onBorder, graph, ids, counted, limit, least);
      next, joins := index, [];
      var i: nat := |graph|;
      while i > 0
        invariant i <= |graph| && trees.Valid() && next == trees.sets
        invariant Merging(trees.State(), sizes, onBorder, graph, ids, counted, initial, limit, least, i, joins)
      {
        if graph[i - 1].weight < least { return next, i, joins; }
        i := i - 1;
        next, joins := MergeEdge(trees, limit, least, i, next, initial, joins);
      }
      done := 0;
    }

    /** What the pass does with edge `i`. */
    method MergeEdge(trees: UnionFind, limit: nat, ghost least: real, i: nat, next: int, ghost initial: seq<bool>, ghost joins: seq<nat>)
        returns (next': int, ghost joins': seq<nat>)
      requires trees.Valid() && next == trees.sets && i < |graph| && graph[i].weight >= least
      requires Merging(trees.State(), sizes, onBorder, graph, ids, counted, initial, limit, least, i + 1, joins)
      modifies this`sizes, this`onBorder, trees, trees.p, trees.r
      ensures trees.Valid() && next' == trees.sets
      ensures Merging(trees.State(), sizes, onBorder, graph, ids, counted, initial, limit, least, i, joins')
    {
      hide Merging, Represents, Consistent, JoinRoots, Merge, SizesAfter, SizesOf, RegionGraph;
      ghost var c, s, b := trees.State(), sizes, onBorder;
      MergingRange(c, s, b, graph, ids, counted, initial, limit, least, i, joins);
      next', joins' := next, joins;
      var v1 := trees.FindSet(graph[i].a);
      var v2 := trees.FindSet(graph[i].b);
      if v1 != v2 && ((sizes[v1] < limit && !onBorder[v1]) || (sizes[v2] < limit && !onBorder[v2])) {
        sizes := sizes[v1 := sizes[v1] + sizes[v2]];
        sizes := sizes[v2 := 0];
        var vr := trees.Join(v1, v2);
        sizes := sizes[vr := sizes[v1]][v1 := sizes[vr]];
        onBorder := onBorder[vr := onBorder[v1] || onBorder[v2]];
        next' := next - 1;
        joins' := joins + [i];
        SwapSizes(s, v1, v2, vr);
        MergeStep(c, s, b, graph, ids, counted, initial, limit, least, i, joins, v1, v2, vr);
      } else {
        MergeSkip(c, s, b, graph, ids, counted, initial, limit, least, i, joins);
      }
    }

    /** Renumbers the surviving sets 1, 2, ... in place and hands the rest to the background. `full` is `sizes` before
        it is cut to length. */
    method Compact(limit: nat, next: int, ghost rep: seq<nat>) returns (next': int, count: nat, ghost from: seq<nat>, ghost full: seq<nat>)
      requires IsPartition(rep) && |sizes| == |onBorder| == |rep| > 0 && rep[0] == 0 && next == |Roots(rep)|
      requires SizesOf(sizes, ids, counted, rep)
      modifies this`sizes, this`onBorder, this`remaps
      ensures count == |from| && onBorder == [] && |remaps| == |rep|
      ensures Compacting(old(sizes), old(onBorder), limit, ids, counted, rep, full, remaps, from, |rep|)
      ensures sizes == full[..count]
      ensures next' == count <==> EmptyRoots(rep, old(sizes), |rep|) == {}
    {
      hide SizesOf, Compacting, Kept, IsPartition, CountersAt;
      ghost var merged := sizes;
      remaps := seq(|sizes|, _ => 0);
      count, next', from := 1, next, [0];
      CompactStart(merged, onBorder, limit, ids, counted, rep, remaps);
      CountersStart(rep, merged);
      for i := 1 to |sizes|
        invariant |sizes| == |remaps| == |onBorder| == |rep| && count == |from| <= i && onBorder == old(onBorder)
        invariant sizes[i..] == merged[i..]
        invariant Compacting(merged, onBorder, limit, ids, counted, rep, sizes, remaps, from, i)
        invariant CountersAt(rep, merged, i, next', count)
      {
        assert sizes[i] == merged[i];
        CountersNext(ids, counted, rep, merged, i, next', count);
        if sizes[i] != 0 {
          if sizes[i] >= limit || onBorder[i] {
            KeptIs(merged, onBorder, limit, i);
            CompactKeep(merged, onBorder, limit, ids, counted, rep, sizes, remaps, from, i);
            sizes := sizes[count := sizes[i]];
            remaps := remaps[i := count];
            count, from := count + 1, from + [i];
          } else {
            KeptIs(merged, onBorder, limit, i);
            CompactDrop(merged, onBorder, limit, ids, counted, rep, sizes, remaps, from, i);
            ghost var r := remaps;
            sizes := sizes[0 := sizes[0] + sizes[i]];
            sizes, remaps := sizes[i := 0], remaps[i := 0];
            assert remaps == r;
            next' := next' - 1;
          }
        } else {
          KeptIs(merged, onBorder, limit, i);
          CompactDrop(merged, onBorder, limit, ids, counted, rep, sizes, remaps, from, i);
        }
      }
      CountersEnd(rep, merged, next', count);
      onBorder, full := [], sizes;
      sizes := sizes[..count];
    }

    /** Gives every voxel the new number of its region's set. */
    method RelabelAll(trees: UnionFind)
      requires trees.Valid() && |remaps| == trees.size && forall l | l in ids :: l < trees.size
      modifies this`ids, trees.p
      ensures trees.Valid() && trees.State() == old(trees.State()) && trees.sets == old(trees.sets)
      ensures ids == Relabel(old(ids), trees.rep, remaps)
    {
      ghost var was, rep, st, sets := ids, trees.rep, trees.State(), trees.sets;
      hide Consistent;
      for i := 0 to |ids|
        invariant |ids| == |was| && ids[i..] == was[i..] && ids[..i] == Relabel(was, rep, remaps)[..i]
        invariant trees.Valid() && trees.State() == st && trees.sets == sets
      {
        assert ids[i] == was[i] && was[i] in was;
        var r := trees.FindSet(ids[i]);
        ids := ids[i := remaps[r]];
      }
    }

    /** The size threshold step; `agree` is whether the two ways of counting the survivors agree. */
    method ApplySizeThreshold(limit: nat, least: real) returns (agree: bool, ghost c: Classes, ghost merged: seq<nat>, ghost border: seq<bool>,
        ghost done: nat, ghost joins: seq<nat>)
      requires Ready()
      modifies this`sizes, this`onBorder, this`remaps, this`ids
      ensures done <= |graph| && (done == 0 || graph[done - 1].weight < least)
      ensures Merging(c, merged, border, graph, old(ids), counted, old(onBorder), limit, least, done, joins)
      ensures Thresholded(c, merged, border, remaps, sizes, old(ids), ids, counted, limit)
      ensures agree <==> EmptyRoots(c.rep, merged, |merged|) == {}
      ensures (forall k | 1 <= k < |old(sizes)| :: old(sizes)[k] > 0) ==> agree
      ensures |old(sizes)| > 1 && (forall k | 0 <= k < |old(sizes)| :: old(sizes)[k] == 0) ==> !agree
    {
      hide EmptyRoots, Merging, SizesOf, Compacting, Thresholded, Relabel, IsPartition, ForestOf, RanksSmall, RegionGraph;
      ghost var before, sizes0, count, from, full := ids, sizes, 0, [], [];
      var trees := new UnionFind(|sizes|);
      var next;
      var newIndex;
      next, done, joins := MergePass(trees, limit, least, |sizes|);
      c, merged, border := trees.State(), sizes, onBorder;
      MergingFacts(c, merged, border, graph, ids, counted, old(onBorder), limit, least, done, joins);
      next, newIndex, from, full := Compact(limit, next, trees.rep);
      agree := next == newIndex;
      RelabelAll(trees);
      ThresholdDone(c, merged, border, limit, before, counted, full, remaps, from, ids);
      if forall k | 1 <= k < |sizes0| :: sizes0[k] > 0 { NoEmptyRoots(sizes0, merged, before, counted, c.rep); }
      if |sizes0| > 1 && forall k | 0 <= k < |sizes0| :: sizes0[k] == 0 { AllEmptyRoots(sizes0, merged, before, counted, c.rep); }
    }

    /** Builds the dendrogram of the survivors; edges lighter than `low`, if given, are not looked at. `picked` are the
        positions of its edges in the graph. */
    method GenerateDendr(low: Option<real>) returns (ghost picked: seq<nat>)
      requires Rising(graph) && |sizes| > 0 && forall j | 0 <= j < |remaps| :: remaps[j] < |sizes|
      requires RegionGraph(graph, |remaps|)
      modifies this`dendr
      ensures MaximumSpanningForest(dendr, graph, remaps, low) && Kruskal(dendr, picked, graph, remaps, low)
    {
      hide Spanning, Picked, Joining, Consistent, Merge, JoinRoots, MaximumSpanningForest, Kruskal;
      dendr, picked := [], [];
      var trees := new UnionFind(|sizes|);
      SpanningStart(trees.rep, graph, remaps);
      NothingPicked(graph, remaps);
      var i: nat := |graph|;
      while i > 0
        invariant i <= |graph| && trees.Valid() && trees.size == |sizes|
        invariant Spanning(trees.rep, dendr, graph, remaps, i) && Picked(dendr, picked, graph, remaps, i)
        invariant forall k | i <= k < |graph| :: Passes(graph[k], low)
      {
        if low.Some? && graph[i - 1].weight < low.value { break; }
        i := i - 1;
        picked := LookAt(trees, i, picked);
      }
      SpanningDone(trees.rep, dendr, picked, graph, remaps, i, low);
    }

    /** What the loop does with edge `i`. */
    method LookAt(trees: UnionFind, i: nat, ghost picked: seq<nat>) returns (ghost picked': seq<nat>)
      requires trees.Valid() && trees.size == |sizes| && i < |graph| && RegionGraph(graph, |remaps|)
      requires forall j | 0 <= j < |remaps| :: remaps[j] < |sizes|
      requires Spanning(trees.rep, dendr, graph, remaps, i + 1) && Picked(dendr, picked, graph, remaps, i + 1)
      modifies this`dendr, trees, trees.p, trees.r
      ensures trees.Valid()
      ensures Spanning(trees.rep, dendr, graph, remaps, i) && Picked(dendr, picked', graph, remaps, i)
    {
      hide Spanning, Picked, Joining, Consistent, Merge, JoinRoots;
      picked' := picked;
      assert graph[i] in graph;
      ghost var d, rep, c := dendr, trees.rep, trees.State();
      PickNext(d, picked, graph, remaps, i);
      var a1, a2 := remaps[graph[i].a], remaps[graph[i].b];
      if a1 != 0 && a2 != 0 {
        JoiningByRoots(rep, d, graph, remaps, i);
        var v1 := trees.FindSet(a1);
        var v2 := trees.FindSet(a2);
        if v1 != v2 {
          dendr := dendr + [Weighted(graph[i].weight, a1, a2)];
          var w := trees.Join(v1, v2);
          SpanningStep(rep, d, graph, remaps, i, a1, a2, w);
          JoinedRep(c, v1, v2);
          picked' := picked + [i];
        } else {
          SpanningSame(rep, d, graph, remaps, i, a1, a2);
        }
      } else {
        if Joining(graph, remaps, i) { JoiningLive(graph, remaps, i); }
        SpanningSkip(rep, d, graph, remaps, i);
      }
    }
  }

  lemma NothingPicked(graph: seq<Weighted>, remaps: seq<nat>)
    ensures Picked([], [], graph, remaps, |graph|)
  {
  }

  lemma JoinedRep(c: Classes, x: nat, y: nat)
    requires |c.rep| == |c.rank| && x < |c.rank| && y < |c.rank|
    ensures JoinRoots(c, x, y).rep == Merge(c.rep, x, y, Winner(c.rank, x, y))
  {
  }

  lemma MergingFacts(c: Classes, sizes: seq<nat>, border: seq<bool>, graph: seq<Weighted>, ids: seq<nat>, counted: set<nat>,
    initial: seq<bool>, limit: nat, least: real, i: nat, joins: seq<nat>)
    requires Merging(c, sizes, border, graph, ids, counted, initial, limit, least, i, joins)
    ensures IsPartition(c.rep) && SizesOf(sizes, ids, counted, c.rep) && |sizes| == |border| == |c.rep|
    ensures forall l: nat | l < |c.rep| :: c.rep[l] == 0 <==> l == 0
  {
  }

  /** What the size threshold step leaves behind: `c`, `merged` and `border` are the sets, sizes and border flags after
      the merging pass. */
  ghost predicate Thresholded(c: Classes, merged: seq<nat>, border: seq<bool>, remaps: seq<nat>, sizes: seq<nat>,
    before: seq<nat>, ids: seq<nat>, counted: set<nat>, limit: nat)
  {
    && |remaps| == |merged| == |border| == |c.rep| && ids == Relabel(before, c.rep, remaps)
    && (forall k: nat | k < |sizes| :: sizes[k] == |Labelled(ids, counted, k)|)
    && (forall l | l in ids :: l < |sizes|) && (forall k: nat | 1 <= k < |sizes| :: k in ids)
    && (forall j: nat | 1 <= j < |remaps| :: remaps[j] < |sizes| && (remaps[j] != 0 <==> Kept(merged, border, limit, j)))
    && (forall i, j :: RenumberedUp(remaps, i, j))
    && |sizes| > 0 && |remaps| > 0 && remaps[0] == 0
  }

  /** Survivors keep their order. */
  ghost predicate RenumberedUp(remaps: seq<nat>, i: int, j: int) {
    0 <= i < j < |remaps| && remaps[i] != 0 && remaps[j] != 0 ==> remaps[i] < remaps[j]
  }

  lemma ThresholdDone(c: Classes, merged: seq<nat>, border: seq<bool>, limit: nat, before: seq<nat>, counted: set<nat>,
    full: seq<nat>, remaps: seq<nat>, from: seq<nat>, ids: seq<nat>)
    requires IsPartition(c.rep) && SizesOf(merged, before, counted, c.rep) && |border| == |merged|
    requires Compacting(merged, border, limit, before, counted, c.rep, full, remaps, from, |merged|)
    requires (forall l | l in before :: l < |c.rep|) && ids == Relabel(before, c.rep, remaps)
    ensures |from| <= |full| && Thresholded(c, merged, border, remaps, full[..|from|], before, ids, counted, limit)
  {
    VoxelsConserved(merged, border, limit, before, counted, c.rep, full, remaps, from);
    forall j: nat | 1 <= j < |remaps|
      ensures remaps[j] < |from| && (remaps[j] != 0 <==> Kept(merged, border, limit, j)) && (remaps[j] != 0 ==> from[remaps[j]] == j)
    {
      assert Renumbered(merged, border, limit, remaps, from, j);
    }
    forall i, j ensures RenumberedUp(remaps, i, j) {
      if 0 <= i < j < |remaps| && remaps[i] != 0 && remaps[j] != 0 {
        assert from[remaps[i]] == i && from[remaps[j]] == j;
        assert RisingAt(from, remaps[j], remaps[i]);
      }
    }
  }

  lemma KeptIs(merged: seq<nat>, border: seq<bool>, limit: nat, i: nat)
    requires i < |merged| == |border|
    ensures Kept(merged, border, limit, i) <==> merged[i] != 0 && (merged[i] >= limit || border[i])
  {
  }

  lemma CompactStart(merged: seq<nat>, border: seq<bool>, limit: nat, ids: seq<nat>, counted: set<nat>, rep: seq<nat>, remaps: seq<nat>)
    requires IsPartition(rep) && |merged| == |border| == |rep| > 0 && SizesOf(merged, ids, counted, rep)
    requires remaps == seq(|merged|, _ => 0)
    ensures Compacting(merged, border, limit, ids, counted, rep, merged, remaps, [0], 1)
  {
    assert Background(ids, counted, rep, remaps, 1) == VoxelsOf(ids, counted, rep, 0);
  }

  lemma MergingRange(c: Classes, sizes: seq<nat>, border: seq<bool>, graph: seq<Weighted>, ids: seq<nat>, counted: set<nat>,
    initial: seq<bool>, limit: nat, least: real, i: nat, joins: seq<nat>)
    requires Merging(c, sizes, border, graph, ids, counted, initial, limit, least, i + 1, joins) && i < |graph|
    ensures |sizes| == |border| == |c.rep| && graph[i].a < |sizes| && graph[i].b < |sizes|
  {
    assert graph[i] in graph;
  }

  /** Adding up in the first set and swapping with the winner leaves the sum at the winner. */
  lemma SwapSizes(sizes: seq<nat>, x: nat, y: nat, w: nat)
    requires x < |sizes| && y < |sizes| && x != y && (w == x || w == y)
    ensures var s := sizes[x := sizes[x] + sizes[y]][y := 0]; s[w := s[x]][x := s[w]] == SizesAfter(sizes, x, y, w)
  {
  }

  lemma MergingStart(parent: seq<nat>, c: Classes, sets: nat, sizes: seq<nat>, border: seq<bool>, graph: seq<Weighted>,
    ids: seq<nat>, counted: set<nat>, limit: nat, least: real)
    requires Consistent(parent, c.rank, c.rep, sets) && c == Classes(Identity(|sizes|), seq(|sizes|, _ => 0)) && |border| == |sizes|
    requires RegionGraph(graph, |sizes|) && SizesOf(sizes, ids, counted, c.rep)
    ensures Merging(c, sizes, border, graph, ids, counted, border, limit, least, |graph|, [])
  {
    forall r: nat | r < |sizes| ensures border[r] <==> SomeOnBorder(border, c.rep, r) {
      if border[r] { assert c.rep[r] == r; }
    }
  }
}
