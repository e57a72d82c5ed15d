/** Hopcroft-Karp maximum bipartite matching: breadth-first layering, augmentation by depth-first
    search along the layers, repeated until no augmenting path is left. */
module BipartiteMatching {
  import opened Counting
  import opened Paths
  import opened SortedEdges
  import opened VertexNumbers

  const INF: nat := 0x7fffffff
  const NIL: nat := 0

  // ---------- graphs, matchings, covers ----------

  /** Left vertices are 1..nl, right vertices nl+1..nl+nr. */
  datatype Graph = Graph(es: seq<Edge>, nl: nat, nr: nat)

  ghost predicate Bipartite(g: Graph) {
    forall e | e in g.es :: 1 <= e.0 <= g.nl < e.1 <= g.nl + g.nr
  }

  /** No two edges share an end. */
  ghost predicate Disjoint(m: set<Edge>) {
    forall a, b | a in m && b in m && (a.0 == b.0 || a.1 == b.1) :: a == b
  }

  ghost predicate IsMatching(m: set<Edge>, es: seq<Edge>) {
    (forall e | e in m :: e in es) && Disjoint(m)
  }

  ghost predicate Covers(c: set<nat>, m: set<Edge>) {
    forall e | e in m :: e.0 in c || e.1 in c
  }

  /** Every matching is at most as large as every vertex cover of it. */
  lemma {:induction false} CoverBoundsMatching(m: set<Edge>, c: set<nat>, nl: nat)
    requires Disjoint(m) && Covers(c, m)
    requires forall e | e in m :: e.0 <= nl < e.1
    ensures |m| <= |c|
    decreases |m|
  {
    if m != {} {
      var e :| e in m;
      var x := if e.0 in c then e.0 else e.1;
      CoverBoundsMatching(m - {e}, c - {x}, nl);
    }
  }

  // ---------- the pairing array ----------

  /** `pair` records a matching: partners are mutual, and joined by an edge. */
  ghost predicate Pairing(pair: seq<nat>, g: Graph) {
    match g
    case Graph(es, nl, nr) =>
      && |pair| == nl + nr + 1 && pair[NIL] == NIL
      && (forall u {:trigger pair[u]} | nl < u <= nl + nr :: pair[u] <= nl)
      && (forall v {:trigger Partners(pair, g, v)} | 1 <= v <= nl + nr :: Partners(pair, g, v))
  }

  /** If `v` has a partner, it is the partner of its partner, and they are joined by an edge. */
  ghost predicate Partners(pair: seq<nat>, g: Graph, v: nat)
    requires v < |pair|
  {
    pair[v] != NIL ==>
      && pair[v] < |pair| && pair[pair[v]] == v
      && (if v <= g.nl then (v, pair[v]) in g.es else (pair[v], v) in g.es)
  }

  /** A bipartite graph with a matching on it. */
  ghost predicate Paired(pair: seq<nat>, g: Graph) {
    Bipartite(g) && Pairing(pair, g)
  }

  function MatchedLeft(pair: seq<nat>, nl: nat): (s: set<nat>) {
    set v: nat | 1 <= v <= nl && v < |pair| && pair[v] != NIL
  }

  /** The edges that `pair` selects. */
  ghost function Selected(pair: seq<nat>, nl: nat): (m: set<Edge>) {
    set v | v in MatchedLeft(pair, nl) :: (v, pair[v])
  }

  lemma {:induction false} ImageSize(pair: seq<nat>, nl: nat, s: set<nat>)
    requires s <= MatchedLeft(pair, nl)
    ensures |set v | v in s :: (v, pair[v])| == |s|
  {
    var m := set v | v in s :: (v, pair[v]);
    if s != {} {
      var x :| x in s;
      ImageSize(pair, nl, s - {x});
      var t := set v | v in s - {x} :: (v, pair[v]);
      assert m == t + {(x, pair[x])};
    } else {
      assert m == {};
    }
  }

  lemma SelectedIsMatching(pair: seq<nat>, g: Graph)
    requires Paired(pair, g)
    ensures IsMatching(Selected(pair, g.nl), g.es) && |Selected(pair, g.nl)| == |MatchedLeft(pair, g.nl)|
  {
    ImageSize(pair, g.nl, MatchedLeft(pair, g.nl));
    forall v | v in MatchedLeft(pair, g.nl) ensures (v, pair[v]) in g.es && pair[pair[v]] == v {
      assert Partners(pair, g, v);
    }
  }

  // ---------- augmentation ----------

  /** `q` is `pair` after an augmentation that ends in `v`: `v` is newly matched and whatever it was
      matched to before is free to take. */
  ghost predicate Augmented(pair: seq<nat>, q: seq<nat>, g: Graph, v: nat) {
    && 1 <= v <= g.nl && |q| == |pair| == g.nl + g.nr + 1
    && q[NIL] == NIL && q[v] != NIL && pair[v] < |pair|
    && Pairing(q[pair[v] := NIL], g)
    && MatchedLeft(q, g.nl) == MatchedLeft(pair, g.nl) + {v}
  }

  /** Matching `v` to a free right neighbour `u`, and letting go of v's former partner. */
  lemma Augment(pair: seq<nat>, g: Graph, v: nat, u: nat)
    requires Paired(pair, g) && (v, u) in g.es && pair[u] == NIL
    ensures pair[v] < |pair| && Pairing(pair[u := v][v := u][pair[v] := NIL], g)
    ensures MatchedLeft(pair[u := v][v := u][pair[v] := NIL], g.nl) == MatchedLeft(pair, g.nl) + {v}
  {
    if pair[v] != NIL { assert Partners(pair, g, v); }
    var q := pair[u := v][v := u][pair[v] := NIL];
    forall x | 1 <= x <= g.nl + g.nr ensures Partners(q, g, x) {
      if x != u && x != v { assert Partners(pair, g, x); }
    }
  }

  /** Passing an augmentation on: `u`'s former partner `w` has been rematched, so `v` may take `u`. */
  lemma AugmentThrough(pair: seq<nat>, q: seq<nat>, g: Graph, v: nat, u: nat)
    requires Paired(pair, g) && (v, u) in g.es
    requires |q| == |pair| && q[v] == pair[v]
    requires if pair[u] == NIL then q == pair else Augmented(pair, q, g, pair[u])
    ensures Augmented(pair, q[u := v][v := u], g, v)
  {
    var w, p := pair[u], q[u := NIL];
    if w != NIL {
      assert Partners(pair, g, u);
      assert w in MatchedLeft(pair, g.nl);
    } else {
      assert p == pair;
    }
    assert MatchedLeft(p, g.nl) == MatchedLeft(q, g.nl) == MatchedLeft(pair, g.nl);
    Augment(p, g, v, u);
    var r := q[u := v][v := u];
    assert p[u := v][v := u] == r;
    if pair[v] != NIL { assert Partners(pair, g, v); }
    assert MatchedLeft(r, g.nl) == MatchedLeft(r[pair[v] := NIL], g.nl);
  }

  // ---------- layers ----------

  /** `w` was reached from the layer before it, along an edge and back along the pairing. */
  ghost predicate HasPredecessor(dist: seq<nat>, pair: seq<nat>, g: Graph, w: nat) {
    exists e {:trigger e in g.es} | e in g.es :: StepsTo(dist, pair, e, w)
  }

  ghost predicate StepsTo(dist: seq<nat>, pair: seq<nat>, e: Edge, w: nat) {
    e.0 < |dist| && e.1 < |pair| && pair[e.1] == w < |dist| && dist[e.0] + 1 == dist[w]
  }

  /** What breadth-first search knows: layer 0 is the free left vertices, and every vertex of a later layer
      has a predecessor in the layer before. */
  ghost predicate Layers(dist: seq<nat>, pair: seq<nat>, g: Graph) {
    match g
    case Graph(es, nl, nr) =>
      && |dist| == nl + 1 && |pair| == nl + nr + 1
      && (forall v | 0 <= v <= nl :: dist[v] <= INF)
      && (forall v | 0 <= v <= nl :: dist[v] == 0 <==> v != NIL && pair[v] == NIL)
      && (forall v {:trigger HasPredecessor(dist, pair, g, v)} | 0 <= v <= nl && 0 < dist[v] < INF :: HasPredecessor(dist, pair, g, v))
  }

  /** No edge skips a layer or leaves the layered part. */
  ghost predicate Tight(dist: seq<nat>, pair: seq<nat>, g: Graph) {
    forall e | e in g.es :: EdgeTight(dist, pair, e)
  }

  ghost predicate EdgeTight(dist: seq<nat>, pair: seq<nat>, e: Edge) {
    && e.0 < |dist| && e.1 < |pair| && pair[e.1] < |dist|
    && (dist[e.0] != INF ==> dist[pair[e.1]] <= dist[e.0] + 1)
  }

  /** The vertices of layers before `d`. */
  ghost function Before(dist: seq<nat>, nl: nat, d: nat): (s: set<nat>) {
    set v: nat | 1 <= v <= nl && v < |dist| && dist[v] < d
  }

  /** Layers have no gaps, so their numbers stay below the number of vertices, far from INF. */
  lemma {:induction false} LayerSize(dist: seq<nat>, pair: seq<nat>, g: Graph, w: nat)
    requires Bipartite(g) && Layers(dist, pair, g)
    requires w <= g.nl && dist[w] < INF
    ensures dist[w] <= |Before(dist, g.nl, dist[w])| <= g.nl
    decreases dist[w]
  {
    var s := Before(dist, g.nl, dist[w]);
    if dist[w] > 0 {
      assert HasPredecessor(dist, pair, g, w);
      var e :| e in g.es && StepsTo(dist, pair, e, w);
      LayerSize(dist, pair, g, e.0);
      SubsetSize(Before(dist, g.nl, dist[e.0]) + {e.0}, s);
    }
    SubsetSize(s, Below(g.nl + 1) - {0});
  }

  /** The layering is determined by the graph and the pairing: it is the breadth-first distance. */
  lemma {:induction false} LayerNoLater(d1: seq<nat>, d2: seq<nat>, pair: seq<nat>, g: Graph, w: nat)
    requires Layers(d1, pair, g) && Layers(d2, pair, g) && Tight(d2, pair, g)
    requires w <= g.nl && d1[w] < INF
    ensures d2[w] <= d1[w]
    decreases d1[w]
  {
    if d1[w] > 0 {
      assert HasPredecessor(d1, pair, g, w);
      var e :| e in g.es && StepsTo(d1, pair, e, w);
      LayerNoLater(d1, d2, pair, g, e.0);
      assert EdgeTight(d2, pair, e);
    }
  }

  lemma LayersUnique(d1: seq<nat>, d2: seq<nat>, pair: seq<nat>, g: Graph)
    requires Layers(d1, pair, g) && Tight(d1, pair, g)
    requires Layers(d2, pair, g) && Tight(d2, pair, g)
    ensures d1 == d2
  {
    forall w | 0 <= w <= g.nl ensures d1[w] == d2[w] {
      if d1[w] < INF { LayerNoLater(d1, d2, pair, g, w); }
      if d2[w] < INF { LayerNoLater(d2, d1, pair, g, w); }
    }
  }

  // ---------- breadth-first search ----------

  function Unreached(dist: seq<nat>): (n: nat) {
    |set w: nat | w < |dist| && dist[w] == INF|
  }

  /** The queue is `k` vertices of layer `d` followed by vertices of the next layer, and nothing is beyond that. */
  ghost predicate Frontier(dist: seq<nat>, queue: seq<nat>, d: nat, k: nat) {
    && k <= |queue| && d + 1 < INF
    && (forall i | 0 <= i < |queue| :: queue[i] < |dist| && dist[queue[i]] == if i < k then d else d + 1)
    && (forall w | 0 <= w < |dist| && dist[w] != INF :: dist[w] <= d + 1)
  }

  /** Every edge of a reached vertex no longer queued, and of `v` the edges before position `it`, lead at most
      one layer on. */
  ghost predicate Explored(dist: seq<nat>, pair: seq<nat>, g: Graph, queue: seq<nat>, v: nat, it: nat) {
    forall k {:trigger EdgeTight(dist, pair, g.es[k])} | 0 <= k < |g.es| && (g.es[k].0 == v ==> k < it) && g.es[k].0 !in queue ::
      EdgeTight(dist, pair, g.es[k])
  }

  /** The state of the search while the edges of `v`, of layer `d`, are scanned from position `it`. */
  ghost predicate Expanding(dist: seq<nat>, pair: seq<nat>, g: Graph, queue: seq<nat>, d: nat, k: nat, v: nat, it: nat) {
    match g
    case Graph(es, nl, nr) =>
      && Layers(dist, pair, g) && Frontier(dist, queue, d, k)
      && v <= nl && dist[v] == d && Explored(dist, pair, g, queue, v, it)
  }

  /** The state of the search between vertices. */
  ghost predicate Layering(dist: seq<nat>, pair: seq<nat>, g: Graph, queue: seq<nat>, d: nat, k: nat) {
    match g
    case Graph(es, nl, nr) =>
      && Layers(dist, pair, g) && Frontier(dist, queue, d, k)
      && Explored(dist, pair, g, queue, NIL, 0)
  }

  lemma LayersGrow(dist: seq<nat>, pair: seq<nat>, g: Graph, e: Edge)
    requires Paired(pair, g) && g.nl + 1 < INF && Layers(dist, pair, g)
    requires e in g.es && dist[e.0] < INF && dist[pair[e.1]] == INF
    ensures Layers(dist[pair[e.1] := dist[e.0] + 1], pair, g)
  {
    var w := pair[e.1];
    var d := dist[w := dist[e.0] + 1];
    LayerSize(dist, pair, g, e.0);
    if w != NIL { assert Partners(pair, g, e.1); }
    forall x | 0 <= x <= g.nl && 0 < d[x] < INF ensures HasPredecessor(d, pair, g, x) {
      if x == w {
        assert StepsTo(d, pair, e, w);
      } else {
        assert HasPredecessor(dist, pair, g, x);
        var f :| f in g.es && StepsTo(dist, pair, f, x);
        assert StepsTo(d, pair, f, x);
      }
    }
  }

  lemma UnreachedDrop(dist: seq<nat>, w: nat, x: nat)
    requires w < |dist| && dist[w] == INF && x < INF
    ensures Unreached(dist[w := x]) == Unreached(dist) - 1
  {
    var before := set x: nat | x < |dist| && dist[x] == INF;
    var d := dist[w := x];
    assert (set x: nat | x < |d| && d[x] == INF) == before - {w};
  }

  /** Following edge `it` of `v` to an unreached vertex. */
  lemma ReachNew(dist: seq<nat>, pair: seq<nat>, g: Graph, queue: seq<nat>, d: nat, k: nat, v: nat, it: nat, w: nat)
    requires Paired(pair, g) && g.nl + 1 < INF && Expanding(dist, pair, g, queue, d, k, v, it)
    requires it < |g.es| && g.es[it].0 == v && w == pair[g.es[it].1] && dist[w] == INF
    ensures Expanding(dist[w := dist[v] + 1], pair, g, queue + [w], d, k, v, it + 1)
    ensures Unreached(dist[w := dist[v] + 1]) == Unreached(dist) - 1
  {
    assert g.es[it] in g.es;
    var dw := dist[w := dist[v] + 1];
    LayersGrow(dist, pair, g, g.es[it]);
    UnreachedDrop(dist, w, dist[v] + 1);
    forall j | 0 <= j < |g.es| && (g.es[j].0 == v ==> j < it + 1) && g.es[j].0 !in queue + [w]
      ensures EdgeTight(dw, pair, g.es[j])
    {
      if j != it { assert EdgeTight(dist, pair, g.es[j]); }
    }
  }

  /** Following edge `it` of `v` to a vertex reached before. */
  lemma ReachKnown(dist: seq<nat>, pair: seq<nat>, g: Graph, queue: seq<nat>, d: nat, k: nat, v: nat, it: nat)
    requires Paired(pair, g) && Expanding(dist, pair, g, queue, d, k, v, it)
    requires it < |g.es| && g.es[it].0 == v && dist[pair[g.es[it].1]] != INF
    ensures Expanding(dist, pair, g, queue, d, k, v, it + 1)
  {
    assert g.es[it] in g.es;
    assert EdgeTight(dist, pair, g.es[it]);
  }

  /** The layer and count of the frontier once its head is taken. */
  function TailLayer(d: nat, k: nat): (r: nat) {
    if k == 0 then d + 1 else d
  }

  function TailCount(k: nat, size: nat): (r: nat)
    requires size > 0
  {
    if k == 0 then size - 1 else k - 1
  }

  /** Taking the next vertex from the queue, and being done with it. */
  lemma ExpandStart(dist: seq<nat>, pair: seq<nat>, g: Graph, queue: seq<nat>, d: nat, k: nat, it: nat)
    requires Paired(pair, g) && g.nl + 1 < INF && queue != [] && Layering(dist, pair, g, queue, d, k)
    requires forall j | 0 <= j < it && j < |g.es| :: g.es[j].0 < queue[0]
    ensures Expanding(dist, pair, g, queue[1..], TailLayer(d, k), TailCount(k, |queue|), queue[0], it)
  {
    var v := queue[0];
    LayerSize(dist, pair, g, v);
    forall j | 0 <= j < |g.es| && (g.es[j].0 == v ==> j < it) && g.es[j].0 !in queue[1..]
      ensures EdgeTight(dist, pair, g.es[j])
    {
      assert g.es[j] in g.es;
      assert g.es[j].0 !in queue;
    }
  }

  lemma ExpandEnd(dist: seq<nat>, pair: seq<nat>, g: Graph, queue: seq<nat>, d: nat, k: nat, v: nat, it: nat)
    requires Bipartite(g) && Expanding(dist, pair, g, queue, d, k, v, it)
    requires v == NIL || forall j | 0 <= j < |g.es| && g.es[j].0 == v :: j < it
    ensures Layering(dist, pair, g, queue, d, k)
  {
    forall j | 0 <= j < |g.es| && g.es[j].0 !in queue ensures EdgeTight(dist, pair, g.es[j]) {
      assert g.es[j] in g.es;
    }
  }

  lemma ScanEnd(dist: seq<nat>, pair: seq<nat>, g: Graph, queue: seq<nat>, d: nat, k: nat, v: nat, lo: nat, it: nat)
    requires Bipartite(g) && Sorted(g.es) && Expanding(dist, pair, g, queue, d, k, v, it)
    requires lo <= it <= |g.es| && (forall j | 0 <= j < lo :: g.es[j].0 < v)
    requires it < |g.es| ==> g.es[it].0 != v && (if lo < it then g.es[it - 1].0 == v else g.es[it].0 >= v)
    ensures Layering(dist, pair, g, queue, d, k)
  {
    ScanComplete(g.es, v, lo, it);
    ExpandEnd(dist, pair, g, queue, d, k, v, it);
  }

  lemma LayeringDone(dist: seq<nat>, pair: seq<nat>, g: Graph, d: nat, k: nat)
    requires Bipartite(g) && Layering(dist, pair, g, [], d, k)
    ensures Tight(dist, pair, g)
  {
    forall e | e in g.es ensures EdgeTight(dist, pair, e) {
      var j :| 0 <= j < |g.es| && g.es[j] == e;
      assert EdgeTight(dist, pair, g.es[j]);
    }
  }

  /** The search starts from all free left vertices. */
  ghost predicate Seeded(dist: seq<nat>, pair: seq<nat>, queue: seq<nat>, n: nat) {
    && n <= |dist| && n <= |pair|
    && (forall w | 1 <= w < n :: dist[w] == if pair[w] == NIL then 0 else INF)
    && (forall w | w in queue :: 1 <= w < n && dist[w] == 0)
    && (forall w | 1 <= w < n && dist[w] == 0 :: w in queue)
  }

  lemma SeededStarts(dist: seq<nat>, pair: seq<nat>, g: Graph, queue: seq<nat>)
    requires Paired(pair, g) && |dist| == g.nl + 1 && dist[NIL] == INF
    requires Seeded(dist, pair, queue, g.nl + 1)
    ensures Layering(dist, pair, g, queue, 0, |queue|)
  {
    forall j | 0 <= j < |g.es| && g.es[j].0 !in queue ensures EdgeTight(dist, pair, g.es[j]) {
      assert g.es[j] in g.es;
    }
    assert forall i | 0 <= i < |queue| :: queue[i] in queue;
  }

  // ---------- optimality ----------

  /** Koenig's cover: left vertices that no layer reaches, and right partners of those some layer reaches. */
  ghost function Cover(dist: seq<nat>, pair: seq<nat>, nl: nat): (c: set<nat>) {
    set v | v in MatchedLeft(pair, nl) :: CoverEnd(dist, pair, v)
  }

  /** The end of the matched edge at `v` that the cover takes. */
  ghost function CoverEnd(dist: seq<nat>, pair: seq<nat>, v: nat): (x: nat)
    requires v < |pair|
  {
    if v < |dist| && dist[v] == INF then v else pair[v]
  }

  lemma {:induction false} CoverSize(dist: seq<nat>, pair: seq<nat>, nl: nat, s: set<nat>)
    requires s <= MatchedLeft(pair, nl)
    requires forall v | v in s :: nl < pair[v] < |pair| && pair[pair[v]] == v
    ensures |set v | v in s :: CoverEnd(dist, pair, v)| == |s|
  {
    var c := set v | v in s :: CoverEnd(dist, pair, v);
    if s == {} {
      assert c == {};
    } else {
      var x :| x in s;
      CoverSize(dist, pair, nl, s - {x});
      var t := set v | v in s - {x} :: CoverEnd(dist, pair, v);
      forall v | v in s - {x} ensures CoverEnd(dist, pair, v) != CoverEnd(dist, pair, x) {
        assert pair[pair[v]] == v && pair[pair[x]] == x;
      }
      assert c == t + {CoverEnd(dist, pair, x)};
    }
  }

  /** Once the layers do not reach NIL, the cover meets every edge and is exactly as large as the matching,
      so no matching is larger. */
  lemma NoAugmentingPathMeansMaximum(dist: seq<nat>, pair: seq<nat>, g: Graph)
    requires Paired(pair, g) && g.nl + 1 < INF
    requires Layers(dist, pair, g) && Tight(dist, pair, g) && dist[NIL] == INF
    ensures Covers(Cover(dist, pair, g.nl), EdgesOf(g.es))
    ensures |Cover(dist, pair, g.nl)| == |MatchedLeft(pair, g.nl)|
    ensures forall m | IsMatching(m, g.es) :: |m| <= |MatchedLeft(pair, g.nl)|
  {
    var c := Cover(dist, pair, g.nl);
    forall e | e in EdgesOf(g.es) ensures e.0 in c || e.1 in c {
      assert EdgeTight(dist, pair, e);
      if dist[e.0] == INF {
        assert e.0 in MatchedLeft(pair, g.nl) && CoverEnd(dist, pair, e.0) == e.0;
      } else {
        LayerSize(dist, pair, g, e.0);
        var w := pair[e.1];
        assert w != NIL;
        assert Partners(pair, g, e.1);
        assert w in MatchedLeft(pair, g.nl) && CoverEnd(dist, pair, w) == e.1;
      }
    }
    forall v | v in MatchedLeft(pair, g.nl) ensures g.nl < pair[v] < |pair| && pair[pair[v]] == v {
      assert Partners(pair, g, v);
    }
    CoverSize(dist, pair, g.nl, MatchedLeft(pair, g.nl));
    forall m | IsMatching(m, g.es) ensures |m| <= |MatchedLeft(pair, g.nl)| {
      CoverBoundsMatching(m, c, g.nl);
    }
  }

  // ---------- progress ----------

  /** Where a sweep stands that started from the pairing `base` and its layers `layer`: `dist` is `layer` except for
      vertices given up; a vertex is given up only when every next-layer vertex behind it, with its partner of the start,
      has been given up too; and right vertices change to partners in earlier layers only. */
  ghost predicate Pruned(layer: seq<nat>, base: seq<nat>, dist: seq<nat>, pair: seq<nat>, g: Graph) {
    match g
    case Graph(es, nl, nr) =>
      && |layer| == |dist| == nl + 1 && |base| == |pair| == nl + nr + 1 && nl + 1 < INF
      && dist[NIL] == layer[NIL]
      && (forall v | 0 <= v <= nl :: dist[v] == layer[v] || dist[v] == INF)
      && (forall v | 0 <= v <= nl && layer[v] < INF :: layer[v] <= nl)
      && (forall e | e in es :: EdgePruned(layer, base, dist, pair, e))
      && (forall u {:trigger MovedUp(layer, base, pair, u)} | nl < u <= nl + nr :: MovedUp(layer, base, pair, u))
  }

  ghost predicate EdgePruned(layer: seq<nat>, base: seq<nat>, dist: seq<nat>, pair: seq<nat>, e: Edge)
    requires |layer| == |dist|
  {
    e.0 < |dist| && e.1 < |pair| && e.1 < |base| && pair[e.1] < |dist| &&
    ((dist[e.0] == INF && layer[e.0] != INF && pair[e.1] == base[e.1] && layer[pair[e.1]] == layer[e.0] + 1 < INF)
      ==> pair[e.1] != NIL && dist[pair[e.1]] == INF)
  }

  ghost predicate MovedUp(layer: seq<nat>, base: seq<nat>, pair: seq<nat>, u: nat) {
    && u < |base| && u < |pair| && base[u] < |layer| && pair[u] < |layer|
    && (pair[u] == base[u] || layer[pair[u]] < layer[base[u]])
  }

  /** If every free left vertex is given up and no pair has changed, so is everything in the layers, and NIL is not in
      them. */
  lemma {:induction false} AllGivenUp(layer: seq<nat>, dist: seq<nat>, pair: seq<nat>, g: Graph, w: nat)
    requires Paired(pair, g) && Layers(layer, pair, g) && Pruned(layer, pair, dist, pair, g)
    requires forall v | 1 <= v <= g.nl && pair[v] == NIL :: dist[v] == INF
    requires w <= g.nl && layer[w] < INF
    ensures w != NIL && dist[w] == INF
    decreases layer[w]
  {
    if layer[w] > 0 {
      assert HasPredecessor(layer, pair, g, w);
      var e :| e in g.es && StepsTo(layer, pair, e, w);
      AllGivenUp(layer, dist, pair, g, e.0);
      assert EdgePruned(layer, pair, dist, pair, e);
    }
  }

  lemma PrunedRefl(layer: seq<nat>, pair: seq<nat>, g: Graph)
    requires Paired(pair, g) && Layers(layer, pair, g) && g.nl + 1 < INF
    ensures Pruned(layer, pair, layer, pair, g)
  {
    forall v | 0 <= v <= g.nl && layer[v] < INF ensures layer[v] <= g.nl { LayerSize(layer, pair, g, v); }
  }

  // ---------- the layer of NIL ----------

  /** After a sweep: from its start to its end matched vertices stay matched, and free ones are given up. */
  ghost predicate Swept(layer: seq<nat>, base: seq<nat>, dist: seq<nat>, pair: seq<nat>, g: Graph) {
    && Paired(base, g) && Layers(layer, base, g) && Tight(layer, base, g)
    && Paired(pair, g) && Pruned(layer, base, dist, pair, g)
    && MatchedLeft(base, g.nl) <= MatchedLeft(pair, g.nl) && FreeGivenUp(dist, pair, g.nl + 1)
  }

  /** In the next layers no vertex comes earlier than before. */
  lemma {:induction false} LayersFall(layer: seq<nat>, base: seq<nat>, dist: seq<nat>, pair: seq<nat>, g: Graph, next: seq<nat>, w: nat)
    requires Swept(layer, base, dist, pair, g) && Layers(next, pair, g)
    requires w <= g.nl && next[w] < INF
    ensures layer[w] <= next[w]
    decreases next[w]
  {
    if next[w] == 0 {
      assert w !in MatchedLeft(pair, g.nl);
    } else {
      assert HasPredecessor(next, pair, g, w);
      var e :| e in g.es && StepsTo(next, pair, e, w);
      LayersFall(layer, base, dist, pair, g, next, e.0);
      assert EdgeTight(layer, base, e) && MovedUp(layer, base, pair, e.1);
    }
  }

  /** ... and the vertices of which one comes as early are given up. */
  lemma {:induction false} SameLayerGivenUp(layer: seq<nat>, base: seq<nat>, dist: seq<nat>, pair: seq<nat>, g: Graph, next: seq<nat>, w: nat)
    requires Swept(layer, base, dist, pair, g) && Layers(next, pair, g)
    requires w <= g.nl && next[w] == layer[w] < INF
    ensures w != NIL && dist[w] == INF
    decreases next[w]
  {
    if next[w] > 0 {
      assert HasPredecessor(next, pair, g, w);
      var e :| e in g.es && StepsTo(next, pair, e, w);
      LayersFall(layer, base, dist, pair, g, next, e.0);
      assert EdgeTight(layer, base, e) && MovedUp(layer, base, pair, e.1);
      SameLayerGivenUp(layer, base, dist, pair, g, next, e.0);
      assert EdgePruned(layer, base, dist, pair, e);
    }
  }

  /** The layer of NIL, the length of the shortest augmenting paths, rises from phase to phase. */
  lemma NilRises(layer: seq<nat>, base: seq<nat>, dist: seq<nat>, pair: seq<nat>, g: Graph, next: seq<nat>)
    requires Swept(layer, base, dist, pair, g) && Layers(next, pair, g) && layer[NIL] != INF
    ensures next[NIL] > layer[NIL]
  {
    if next[NIL] < INF {
      LayersFall(layer, base, dist, pair, g, next, NIL);
      if next[NIL] == layer[NIL] { SameLayerGivenUp(layer, base, dist, pair, g, next, NIL); }
    }
  }

  // ---------- how many phases ----------

  /** The matched left vertices of layers from `lo` to `hi`. */
  ghost function Band(dist: seq<nat>, pair: seq<nat>, nl: nat, lo: nat, hi: nat): (s: set<nat>) {
    set v | v in MatchedLeft(pair, nl) && v < |dist| && lo <= dist[v] <= hi
  }

  /** A cover that cuts the layers at `t`: left vertices from there on, and partners of those up to there. */
  ghost function Cut(dist: seq<nat>, pair: seq<nat>, nl: nat, t: nat): (c: set<nat>) {
    Band(dist, pair, nl, t, INF) + PartnersOf(pair, nl, Band(dist, pair, nl, 0, t))
  }

  ghost function PartnersOf(pair: seq<nat>, nl: nat, s: set<nat>): (r: set<nat>)
    requires s <= MatchedLeft(pair, nl)
  {
    set v | v in s :: pair[v]
  }

  lemma {:induction false} PartnersSize(pair: seq<nat>, nl: nat, s: set<nat>)
    requires s <= MatchedLeft(pair, nl)
    ensures |PartnersOf(pair, nl, s)| <= |s|
    decreases |s|
  {
    if s == {} {
      assert PartnersOf(pair, nl, s) == {};
    } else {
      var x :| x in s;
      PartnersSize(pair, nl, s - {x});
      assert PartnersOf(pair, nl, s) == PartnersOf(pair, nl, s - {x}) + {pair[x]};
    }
  }

  lemma CutCovers(dist: seq<nat>, pair: seq<nat>, g: Graph, t: nat, e: Edge)
    requires Paired(pair, g) && Layers(dist, pair, g) && Tight(dist, pair, g) && 1 <= t < dist[NIL] && e in g.es
    ensures e.0 in Cut(dist, pair, g.nl, t) || e.1 in Cut(dist, pair, g.nl, t)
  {
    var v, w := e.0, pair[e.1];
    assert EdgeTight(dist, pair, e);
    if dist[v] >= t {
      assert v in MatchedLeft(pair, g.nl);
    } else {
      assert dist[w] <= t && w != NIL;
      assert Partners(pair, g, e.1);
      assert w in Band(dist, pair, g.nl, 0, t) && pair[w] == e.1;
    }
  }

  /** No matching is larger than this one by more than a layer before that of NIL. */
  lemma CutBounds(dist: seq<nat>, pair: seq<nat>, g: Graph, t: nat, m: set<Edge>)
    requires Paired(pair, g) && Layers(dist, pair, g) && Tight(dist, pair, g) && 1 <= t < dist[NIL] && IsMatching(m, g.es)
    ensures |m| <= |MatchedLeft(pair, g.nl)| + |Band(dist, pair, g.nl, t, t)|
  {
    var c, all := Cut(dist, pair, g.nl, t), MatchedLeft(pair, g.nl);
    forall e | e in m ensures e.0 in c || e.1 in c { CutCovers(dist, pair, g, t, e); }
    assert forall e | e in m :: e.0 <= g.nl < e.1;
    hide Cut, Layers, Tight, Paired;
    CoverBoundsMatching(m, c, g.nl);
    CutSize(dist, pair, g, t);
  }

  lemma CutSize(dist: seq<nat>, pair: seq<nat>, g: Graph, t: nat)
    requires Paired(pair, g) && Layers(dist, pair, g)
    ensures |Cut(dist, pair, g.nl, t)| <= |MatchedLeft(pair, g.nl)| + |Band(dist, pair, g.nl, t, t)|
  {
    hide Paired, Layers, MatchedLeft, PartnersOf;
    var lower, upper := Band(dist, pair, g.nl, 0, t), Band(dist, pair, g.nl, t, INF);
    PartnersSize(pair, g.nl, lower);
    BandsMeet(dist, pair, g, t);
    hide Band;
    UnionSize(lower, upper);
    UnionSize(upper, PartnersOf(pair, g.nl, lower));
  }

  lemma BandsMeet(dist: seq<nat>, pair: seq<nat>, g: Graph, t: nat)
    requires Paired(pair, g) && Layers(dist, pair, g)
    ensures Band(dist, pair, g.nl, 0, t) + Band(dist, pair, g.nl, t, INF) == MatchedLeft(pair, g.nl)
    ensures Band(dist, pair, g.nl, 0, t) * Band(dist, pair, g.nl, t, INF) == Band(dist, pair, g.nl, t, t)
  {
    assert forall v | v in MatchedLeft(pair, g.nl) :: v < |dist| && dist[v] <= INF;
    hide Paired, Layers, MatchedLeft;
  }

  lemma UnionSize(a: set<nat>, b: set<nat>)
    ensures |a + b| + |a * b| == |a| + |b|
  {
    assert a + b == a + (b - a) && b == (b - a) + a * b;
  }

  /** ... so each layer before that of NIL has as many matched vertices as the matching lacks. */
  lemma {:induction false} BandsBound(dist: seq<nat>, pair: seq<nat>, g: Graph, t: nat, m: set<Edge>)
    requires Paired(pair, g) && Layers(dist, pair, g) && Tight(dist, pair, g) && t < dist[NIL] && IsMatching(m, g.es)
    ensures t * (|m| - |MatchedLeft(pair, g.nl)|) <= |Band(dist, pair, g.nl, 1, t)|
    decreases t
  {
    if t > 0 {
      BandsBound(dist, pair, g, t - 1, m);
      CutBounds(dist, pair, g, t, m);
      assert Band(dist, pair, g.nl, 1, t) == Band(dist, pair, g.nl, 1, t - 1) + Band(dist, pair, g.nl, t, t);
      assert Band(dist, pair, g.nl, 1, t - 1) !! Band(dist, pair, g.nl, t, t);
      var k := |m| - |MatchedLeft(pair, g.nl)|;
      assert t * k == (t - 1) * k + k;
    }
  }

  /** With the shortest augmenting paths longer than `t`, what a matching lacks is at most the t-th part of the vertices. */
  ghost predicate LacksLittle(g: Graph, size: nat, t: nat) {
    forall m | IsMatching(m, g.es) :: t * (|m| - size) <= g.nl
  }

  lemma LongPathsLackLittle(dist: seq<nat>, pair: seq<nat>, g: Graph, t: nat)
    requires Paired(pair, g) && Layers(dist, pair, g) && Tight(dist, pair, g) && t < dist[NIL]
    ensures LacksLittle(g, |MatchedLeft(pair, g.nl)|, t)
  {
    forall m | IsMatching(m, g.es) ensures t * (|m| - |MatchedLeft(pair, g.nl)|) <= g.nl {
      BandsBound(dist, pair, g, t, m);
      SubsetSize(Band(dist, pair, g.nl, 1, t), Below(g.nl + 1) - {0});
    }
  }

  /** `sizes[k]` is the size of the matching after k phases; each phase gains, and lengthens the paths. */
  ghost predicate Phases(g: Graph, sizes: seq<nat>) {
    && (forall i, j {:trigger sizes[i], sizes[j]} | 0 <= i <= j < |sizes| :: sizes[i] + (j - i) <= sizes[j])
    && (forall i {:trigger sizes[i]} | 0 <= i < |sizes| :: LacksLittle(g, sizes[i], i))
  }

  /** The phases are at most twice the root of the number of left vertices, and one. */
  lemma FewPhases(g: Graph, pair: seq<nat>, sizes: seq<nat>)
    requires Paired(pair, g) && sizes != [] && Phases(g, sizes) && sizes[|sizes| - 1] == |MatchedLeft(pair, g.nl)|
    ensures var n := |sizes| - 1; n * n <= 4 * g.nl + 1
  {
    var n := |sizes| - 1;
    var k := n / 2;
    SelectedIsMatching(pair, g);
    var m := Selected(pair, g.nl);
    assert LacksLittle(g, sizes[k], k);
    assert sizes[k] + (n - k) <= sizes[n];
    hide Paired, Phases, LacksLittle, Selected, MatchedLeft, IsMatching;
    Halves(n, |m| - sizes[k], g.nl);
  }

  lemma Halves(n: nat, lack: nat, bound: nat)
    requires n - n / 2 <= lack && n / 2 * lack <= bound
    ensures n * n <= 4 * bound + 1
  {
    var k := n / 2;
    assert k * (n - k) <= k * lack;
    if n == 2 * k {
      assert n * n == 4 * (k * (n - k));
    } else {
      assert n == 2 * k + 1 && n * n == 4 * (k * k + k) + 1 && k * (n - k) == k * k + k;
    }
  }

  // ---------- depth-first search ----------

  ghost predicate Bounded(dist: seq<nat>) {
    forall v | 0 <= v < |dist| :: dist[v] <= INF
  }

  /** A search from `v` gives up some vertices, none of them in v's layer or before, except `v` itself. */
  ghost predicate Lowered(d0: seq<nat>, d1: seq<nat>, v: nat) {
    && |d1| == |d0| && v < |d0| && Bounded(d1)
    && (forall x | 0 <= x < |d0| :: d1[x] == d0[x] || d1[x] == INF)
    && (forall x | 0 <= x < |d0| && x != v && d0[x] <= d0[v] :: d1[x] == d0[x])
  }

  /** Likewise for the left partners a successful search may change. */
  ghost predicate KeepsPartners(d0: seq<nat>, p0: seq<nat>, p1: seq<nat>, v: nat, nl: nat) {
    && |d0| == nl + 1 <= |p0| == |p1| && v <= nl
    && (forall x | 1 <= x <= nl && x != v && d0[x] <= d0[v] :: p1[x] == p0[x])
  }

  /** Edge `e` of `v` leads nowhere on the next layer any more. */
  ghost predicate Tried(dist: seq<nat>, pair: seq<nat>, e: Edge) {
    && e.0 < |dist| && e.1 < |pair| && pair[e.1] < |dist|
    && (dist[pair[e.1]] == dist[e.0] + 1 ==> dist[pair[e.1]] == INF)
  }

  /** What a search from `v` has established after trying its edges up to position `it`. */
  ghost predicate Searching(d0: seq<nat>, d1: seq<nat>, pair: seq<nat>, g: Graph, layer: seq<nat>, base: seq<nat>, v: nat, lo: nat, it: nat) {
    match g
    case Graph(es, nl, nr) =>
      && lo <= it <= |es| && (forall j | lo <= j < it :: es[j].0 == v && Tried(d1, pair, es[j]))
      && Lowered(d0, d1, v) && d1[v] == d0[v]
      && (Pruned(layer, base, d0, pair, g) ==> Pruned(layer, base, d1, pair, g))
  }

  /** What a search from `v` promises. */
  ghost predicate Searched(d0: seq<nat>, d1: seq<nat>, p0: seq<nat>, p1: seq<nat>, g: Graph, layer: seq<nat>, base: seq<nat>, v: nat, ok: bool) {
    (Pruned(layer, base, d0, p0, g) ==> Pruned(layer, base, d1, p1, g)) &&
    match ok
    case true =>
      && Lowered(d0, d1, v) && KeepsPartners(d0, p0, p1, v, g.nl)
      && (if v == NIL then p1 == p0 && d1 == d0 else Augmented(p0, p1, g, v))
    case false =>
      && Lowered(d0, d1, v) && v != NIL && p1 == p0 && d1[v] == INF
  }

  lemma SearchNil(d: seq<nat>, pair: seq<nat>, g: Graph, layer: seq<nat>, base: seq<nat>)
    requires |d| == g.nl + 1 <= |pair| && Bounded(d)
    ensures Searched(d, d, pair, pair, g, layer, base, NIL, true)
  {
  }

  lemma SearchStart(d: seq<nat>, pair: seq<nat>, g: Graph, layer: seq<nat>, base: seq<nat>, v: nat, lo: nat)
    requires Bounded(d) && v < |d| && lo <= |g.es|
    ensures Searching(d, d, pair, g, layer, base, v, lo, lo)
  {
  }

  /** An edge that does not lead to the next layer is passed over. */
  lemma SearchSkip(d0: seq<nat>, d1: seq<nat>, pair: seq<nat>, g: Graph, layer: seq<nat>, base: seq<nat>, v: nat, lo: nat, it: nat)
    requires Searching(d0, d1, pair, g, layer, base, v, lo, it)
    requires it < |g.es| && g.es[it].0 == v && g.es[it].1 < |pair| && pair[g.es[it].1] < |d1|
    requires d1[pair[g.es[it].1]] != d1[v] + 1
    ensures Searching(d0, d1, pair, g, layer, base, v, lo, it + 1)
  {
  }

  /** A failed search one layer on is one more edge tried. */
  lemma SearchFailed(d0: seq<nat>, d1: seq<nat>, d2: seq<nat>, pair: seq<nat>, g: Graph, layer: seq<nat>, base: seq<nat>, v: nat, lo: nat, it: nat)
    requires Paired(pair, g) && Searching(d0, d1, pair, g, layer, base, v, lo, it)
    requires it < |g.es| && g.es[it].0 == v && g.es[it].1 < |pair| && pair[g.es[it].1] < |d1|
    requires d1[pair[g.es[it].1]] == d1[v] + 1
    requires Searched(d1, d2, pair, pair, g, layer, base, pair[g.es[it].1], false)
    ensures Searching(d0, d2, pair, g, layer, base, v, lo, it + 1)
  {
    forall x | 0 <= x < |d0| && x != v && d0[x] <= d0[v] ensures d2[x] == d0[x] {
      assert d1[x] == d0[x];
    }
    forall j | lo <= j < it + 1 ensures g.es[j].0 == v && Tried(d2, pair, g.es[j]) {
      if j < it { assert Tried(d1, pair, g.es[j]); }
    }
  }

  /** A successful search one layer on is passed back through `v`. */
  lemma SearchSucceeded(d0: seq<nat>, d1: seq<nat>, d2: seq<nat>, p0: seq<nat>, p1: seq<nat>, g: Graph, layer: seq<nat>, base: seq<nat>, v: nat, u: nat)
    requires Paired(p0, g) && (v, u) in g.es
    requires Lowered(d0, d1, v) && d1[v] == d0[v] && |d0| == g.nl + 1
    requires Pruned(layer, base, d0, p0, g) ==> Pruned(layer, base, d1, p0, g)
    requires d1[p0[u]] == d1[v] + 1 && Searched(d1, d2, p0, p1, g, layer, base, p0[u], true)
    ensures |p1| == |p0|
    ensures Searched(d0, d2, p0, p1[u := v][v := u], g, layer, base, v, true)
  {
    hide Pruned;
    AugmentThrough(p0, p1, g, v, u);
    forall x | 0 <= x < |d0| && x != v && d0[x] <= d0[v] ensures d2[x] == d0[x] {
      assert d1[x] == d0[x];
    }
    forall x | 1 <= x <= g.nl && x != v && d0[x] <= d0[v] ensures p1[x] == p0[x] {
      assert d1[x] == d0[x];
    }
    if Pruned(layer, base, d0, p0, g) { PrunedThrough(d1, d2, p0, p1, g, layer, base, v, u); }
  }

  /** Its new partner is in an earlier layer than the one before. */
  lemma PrunedThrough(d1: seq<nat>, d2: seq<nat>, p0: seq<nat>, p1: seq<nat>, g: Graph, layer: seq<nat>, base: seq<nat>, v: nat, u: nat)
    requires Bipartite(g) && (v, u) in g.es && Pruned(layer, base, d1, p0, g) && Pruned(layer, base, d2, p1, g)
    requires v < |d1| && u < |p0| && p0[u] < |d1| && d1[p0[u]] == d1[v] + 1 <= INF
    ensures |p1| == |p0| && Pruned(layer, base, d2, p1[u := v][v := u], g)
  {
    var q := p1[u := v][v := u];
    assert MovedUp(layer, base, p0, u);
    assert layer[v] < layer[base[u]];
    forall x | g.nl < x <= g.nl + g.nr ensures MovedUp(layer, base, q, x) {
      assert MovedUp(layer, base, p1, x);
    }
    forall e | e in g.es ensures EdgePruned(layer, base, d2, q, e) {
      assert EdgePruned(layer, base, d2, p1, e);
    }
  }

  /** With every edge tried, `v` is given up. */
  lemma SearchExhausted(d0: seq<nat>, d1: seq<nat>, pair: seq<nat>, g: Graph, layer: seq<nat>, base: seq<nat>, v: nat, lo: nat, it: nat)
    requires Paired(pair, g) && 1 <= v <= g.nl && Searching(d0, d1, pair, g, layer, base, v, lo, it)
    requires forall j | 0 <= j < |g.es| && g.es[j].0 == v :: lo <= j < it
    ensures Searched(d0, d1[v := INF], pair, pair, g, layer, base, v, false)
  {
    var d := d1[v := INF];
    if Pruned(layer, base, d1, pair, g) {
      forall e | e in g.es ensures EdgePruned(layer, base, d, pair, e) {
        assert EdgePruned(layer, base, d1, pair, e);
        if e.0 == v {
          var j :| 0 <= j < |g.es| && g.es[j] == e;
          assert Tried(d1, pair, g.es[j]);
        }
      }
    }
  }

  // ---------- a sweep of searches ----------

  /** Where a sweep over the free left vertices stands after those below `v`: it has matched `gained` of them, and given
      up the others; with none matched, no pair has changed. */
  ghost predicate Sweeping(layer: seq<nat>, p0: seq<nat>, dist: seq<nat>, pair: seq<nat>, g: Graph, v: nat, gained: nat) {
    && |dist| == g.nl + 1 && Bounded(dist) && Paired(pair, g)
    && |MatchedLeft(pair, g.nl)| == |MatchedLeft(p0, g.nl)| + gained
    && MatchedLeft(p0, g.nl) <= MatchedLeft(pair, g.nl)
    && (gained == 0 ==> pair == p0) && Pruned(layer, p0, dist, pair, g) && FreeGivenUp(dist, pair, v)
  }

  ghost predicate FreeGivenUp(dist: seq<nat>, pair: seq<nat>, n: nat) {
    forall x | 1 <= x < n :: x < |dist| && x < |pair| && (pair[x] == NIL ==> dist[x] == INF)
  }

  /** One search from `v`, free before it. */
  lemma SweepStep(layer: seq<nat>, p0: seq<nat>, d1: seq<nat>, p1: seq<nat>, d2: seq<nat>, p2: seq<nat>, g: Graph, v: nat, gained: nat, ok: bool)
    requires Paired(p1, g) && Sweeping(layer, p0, d1, p1, g, v, gained)
    requires 1 <= v <= g.nl && p1[v] == NIL && Searched(d1, d2, p1, p2, g, layer, p0, v, ok)
    ensures Sweeping(layer, p0, d2, p2, g, v + 1, if ok then gained + 1 else gained)
  {
    hide Pruned;
    if ok {
      assert p2[NIL := NIL] == p2;
      assert v !in MatchedLeft(p1, g.nl);
      forall x | 1 <= x < v + 1 && p2[x] == NIL ensures d2[x] == INF {
        assert x !in MatchedLeft(p2, g.nl) && x !in MatchedLeft(p1, g.nl);
      }
    } else {
      forall x | 1 <= x < v + 1 ensures p2[x] == NIL ==> d2[x] == INF {
      }
    }
  }

  /** A sweep from layers that reach NIL matches at least one more vertex. */
  lemma SweepGains(layer: seq<nat>, p0: seq<nat>, dist: seq<nat>, pair: seq<nat>, g: Graph, gained: nat)
    requires Paired(p0, g) && Layers(layer, p0, g) && layer[NIL] != INF
    requires Sweeping(layer, p0, dist, pair, g, g.nl + 1, gained)
    ensures gained > 0
  {
    if gained == 0 {
      AllGivenUp(layer, dist, pair, g, NIL);
    }
  }

  // ---------- the result vector ----------

  function CountTrue(bs: seq<bool>): (n: nat) {
    if bs == [] then 0 else CountTrue(bs[..|bs| - 1]) + (if bs[|bs| - 1] then 1 else 0)
  }

  /** `res` marks the edges that `pair` selects, in the order of the sorted edge list. */
  ghost predicate Marks(res: seq<bool>, es: seq<Edge>, pair: seq<nat>, n: nat) {
    && |res| == |es| && n <= |es|
    && forall i | 0 <= i < n :: es[i].0 < |pair| && (res[i] <==> pair[es[i].0] == es[i].1)
  }

  ghost function Marked(res: seq<bool>, es: seq<Edge>, n: nat): (s: set<Edge>)
    requires n <= |es| && n <= |res|
  {
    set i | 0 <= i < n && res[i] :: es[i]
  }

  lemma {:induction false} CountMarked(res: seq<bool>, es: seq<Edge>, n: nat)
    requires n <= |es| && n <= |res|
    requires forall i, j | 0 <= i < j < |es| :: es[i] != es[j]
    ensures CountTrue(res[..n]) == |Marked(res, es, n)|
  {
    if n > 0 {
      CountMarked(res, es, n - 1);
      assert res[..n][..n - 1] == res[..n - 1];
      assert Marked(res, es, n) == Marked(res, es, n - 1) + if res[n - 1] then {es[n - 1]} else {};
    } else {
      assert Marked(res, es, n) == {};
    }
  }

  /** With distinct edges the marked ones are as many as the matched left vertices. */
  lemma MarksCountMatching(res: seq<bool>, pair: seq<nat>, g: Graph)
    requires Paired(pair, g) && Marks(res, g.es, pair, |g.es|)
    requires forall i, j | 0 <= i < j < |g.es| :: g.es[i] != g.es[j]
    ensures CountTrue(res) == |MatchedLeft(pair, g.nl)|
  {
    CountMarked(res, g.es, |g.es|);
    assert res[..|g.es|] == res;
    SelectedIsMatching(pair, g);
    hide Pairing;
    forall e | e in Selected(pair, g.nl) ensures e in Marked(res, g.es, |g.es|) {
      assert e in g.es;
      var i :| 0 <= i < |g.es| && g.es[i] == e;
      assert res[i];
    }
    forall e | e in Marked(res, g.es, |g.es|) ensures e in Selected(pair, g.nl) {
      var i :| 0 <= i < |g.es| && res[i] && g.es[i] == e;
      assert g.es[i] in g.es;
    }
    assert Marked(res, g.es, |g.es|) == Selected(pair, g.nl);
  }

  // ---------- numbering ----------

  function Lefts<A, B>(edges: seq<(A, B)>): (xs: seq<A>) {
    seq(|edges|, i requires 0 <= i < |edges| => edges[i].0)
  }

  function Rights<A, B>(edges: seq<(A, B)>): (xs: seq<B>) {
    seq(|edges|, i requires 0 <= i < |edges| => edges[i].1)
  }

  /** Edge `k` of the input is edge `k` of the numbered list. */
  ghost predicate Numbered<A, B>(edges: seq<(A, B)>, ma: map<A, nat>, mb: map<B, nat>, raw: seq<Edge>, n: nat) {
    && n <= |edges| && n <= |raw|
    && forall k | 0 <= k < n :: edges[k].0 in ma && edges[k].1 in mb && raw[k] == (ma[edges[k].0], mb[edges[k].1])
  }

  ghost predicate InputMatching<A(!new), B(!new)>(m: set<(A, B)>, edges: seq<(A, B)>) {
    && (forall e | e in m :: e in edges)
    && (forall a, b | a in m && b in m && (a.0 == b.0 || a.1 == b.1) :: a == b)
  }

  ghost function Renamed<A, B>(m: set<(A, B)>, ma: map<A, nat>, mb: map<B, nat>): (s: set<Edge>)
    requires forall e | e in m :: e.0 in ma && e.1 in mb
  {
    set e | e in m :: (ma[e.0], mb[e.1])
  }

  lemma {:induction false} RenamedSize<A(!new), B(!new)>(m: set<(A, B)>, ma: map<A, nat>, mb: map<B, nat>, la: nat, ha: nat, lb: nat, hb: nat)
    requires Numbering(ma, la, ha) && Numbering(mb, lb, hb)
    requires forall e | e in m :: e.0 in ma && e.1 in mb
    ensures |Renamed(m, ma, mb)| == |m|
    decreases |m|
  {
    if m == {} {
      assert Renamed(m, ma, mb) == {};
    } else {
      var x :| x in m;
      RenamedSize(m - {x}, ma, mb, la, ha, lb, hb);
      forall y | y in m - {x} ensures (ma[y.0], mb[y.1]) != (ma[x.0], mb[x.1]) {
        assert NoClash(ma, x.0, y.0) && NoClash(mb, x.1, y.1);
      }
      assert Renamed(m, ma, mb) == Renamed(m - {x}, ma, mb) + {(ma[x.0], mb[x.1])};
    }
  }

  lemma NoneNumbered<K(!new)>(xs: seq<K>, lo: nat)
    ensures Numbers(map[], xs[..0], lo) && Appearance(xs[..0]) == []
  {
  }

  lemma LeftNumbered<A(!new), B>(edges: seq<(A, B)>, left: map<A, nat>, i: nat)
    requires Numbers(left, Lefts(edges), 1) && i < |edges|
    ensures edges[i].0 in left
  {
    assert Lefts(edges)[i] in Lefts(edges);
  }

  /** A numbered prefix stays numbered when the right map grows, and the next edge can be added. */
  lemma NumberedNext<A, B>(edges: seq<(A, B)>, ma: map<A, nat>, mb: map<B, nat>, mb': map<B, nat>, raw: seq<Edge>, n: nat)
    requires Numbered(edges, ma, mb, raw, n) && n == |raw| < |edges|
    requires forall b | b in mb :: b in mb' && mb'[b] == mb[b]
    requires edges[n].0 in ma && edges[n].1 in mb'
    ensures Numbered(edges, ma, mb', raw + [(ma[edges[n].0], mb'[edges[n].1])], n + 1)
  {
  }

  lemma StartsPaired<A(!new), B(!new)>(edges: seq<(A, B)>, ma: map<A, nat>, mb: map<B, nat>, raw: seq<Edge>, nl: nat, nr: nat, pair: seq<nat>)
    requires Numbering(ma, 1, nl + 1) && Numbering(mb, nl + 1, nl + nr + 1)
    requires |raw| == |edges| && Numbered(edges, ma, mb, raw, |edges|)
    requires |pair| == nl + nr + 1 && forall v | 0 <= v < |pair| :: pair[v] == NIL
    ensures Sorted(Sort(raw)) && Paired(pair, Graph(Sort(raw), nl, nr)) && MatchedLeft(pair, nl) == {}
  {
    SortSorts(raw);
    forall x | x in Sort(raw) ensures 1 <= x.0 <= nl < x.1 <= nl + nr {
      assert x in EdgesOf(raw);
      var k :| 0 <= k < |raw| && raw[k] == x;
    }
  }

  /** Matchings of the input list and of the numbered graph correspond, with the same sizes. */
  lemma InputMaximum<A(!new), B(!new)>(edges: seq<(A, B)>, ma: map<A, nat>, mb: map<B, nat>, raw: seq<Edge>, g: Graph, size: nat)
    requires Numbering(ma, 1, g.nl + 1) && Numbering(mb, g.nl + 1, g.nl + g.nr + 1)
    requires |raw| == |edges| && Numbered(edges, ma, mb, raw, |edges|) && g.es == Sort(raw)
    requires forall m | IsMatching(m, g.es) :: |m| <= size
    ensures forall m | InputMatching(m, edges) :: |m| <= size
  {
    SortSorts(raw);
    forall m: set<(A, B)> | InputMatching(m, edges) ensures |m| <= size {
      forall x | x in m ensures x.0 in ma && x.1 in mb && (ma[x.0], mb[x.1]) in g.es {
        assert x in edges;
        var k :| 0 <= k < |edges| && edges[k] == x;
        assert raw[k] in EdgesOf(raw);
      }
      RenamedSize(m, ma, mb, 1, g.nl + 1, g.nl + 1, g.nl + g.nr + 1);
      var r := Renamed(m, ma, mb);
      forall a, b | a in r && b in r && (a.0 == b.0 || a.1 == b.1) ensures a == b {
        var x :| x in m && (ma[x.0], mb[x.1]) == a;
        var y :| y in m && (ma[y.0], mb[y.1]) == b;
        assert NoClash(ma, x.0, y.0) && NoClash(mb, x.1, y.1);
      }
      assert IsMatching(r, g.es);
    }
  }

  /** The input edges that `pair` selects. */
  ghost function InputSelected<A, B>(edges: seq<(A, B)>, ma: map<A, nat>, mb: map<B, nat>, pair: seq<nat>): (s: set<(A, B)>)
    requires forall x: (A, B) | x in edges :: x.0 in ma && x.1 in mb && ma[x.0] < |pair|
  {
    set x: (A, B) | x in edges && pair[ma[x.0]] == mb[x.1]
  }

  lemma InputAttained<A(!new), B(!new)>(edges: seq<(A, B)>, ma: map<A, nat>, mb: map<B, nat>, raw: seq<Edge>, g: Graph, pair: seq<nat>)
    requires Numbering(ma, 1, g.nl + 1) && Numbering(mb, g.nl + 1, g.nl + g.nr + 1)
    requires |raw| == |edges| && Numbered(edges, ma, mb, raw, |edges|) && g.es == Sort(raw)
    requires Paired(pair, g)
    requires forall x: (A, B) | x in edges :: x.0 in ma && x.1 in mb && ma[x.0] < |pair|
    ensures InputMatching(InputSelected(edges, ma, mb, pair), edges)
    ensures |InputSelected(edges, ma, mb, pair)| == |MatchedLeft(pair, g.nl)|
  {
    var m := InputSelected(edges, ma, mb, pair);
    forall a, b | a in m && b in m && (a.0 == b.0 || a.1 == b.1) ensures a == b {
      SelectedInput(edges, ma, mb, raw, g, a);
      SelectedInput(edges, ma, mb, raw, g, b);
      assert Partners(pair, g, ma[a.0]) && Partners(pair, g, ma[b.0]);
      assert NoClash(ma, a.0, b.0) && NoClash(mb, a.1, b.1);
    }
    RenamedSize(m, ma, mb, 1, g.nl + 1, g.nl + 1, g.nl + g.nr + 1);
    RenamedSelected(edges, ma, mb, raw, g, pair);
    SelectedIsMatching(pair, g);
  }

  lemma RenamedSelected<A(!new), B(!new)>(edges: seq<(A, B)>, ma: map<A, nat>, mb: map<B, nat>, raw: seq<Edge>, g: Graph, pair: seq<nat>)
    requires Numbering(ma, 1, g.nl + 1) && Numbering(mb, g.nl + 1, g.nl + g.nr + 1)
    requires |raw| == |edges| && Numbered(edges, ma, mb, raw, |edges|) && g.es == Sort(raw)
    requires Paired(pair, g)
    requires forall x: (A, B) | x in edges :: x.0 in ma && x.1 in mb && ma[x.0] < |pair|
    ensures Renamed(InputSelected(edges, ma, mb, pair), ma, mb) == Selected(pair, g.nl)
  {
    var m := InputSelected(edges, ma, mb, pair);
    forall x | x in Selected(pair, g.nl) ensures x in Renamed(m, ma, mb) {
      assert Partners(pair, g, x.0);
      SortSorts(raw);
      assert x in EdgesOf(raw);
      var k :| 0 <= k < |raw| && raw[k] == x;
      assert edges[k] in m;
    }
    forall x | x in m ensures (ma[x.0], mb[x.1]) in Selected(pair, g.nl) {
      SelectedInput(edges, ma, mb, raw, g, x);
    }
  }

  lemma SelectedInput<A(!new), B(!new)>(edges: seq<(A, B)>, ma: map<A, nat>, mb: map<B, nat>, raw: seq<Edge>, g: Graph, x: (A, B))
    requires Numbering(ma, 1, g.nl + 1) && Numbering(mb, g.nl + 1, g.nl + g.nr + 1)
    requires |raw| == |edges| && Numbered(edges, ma, mb, raw, |edges|) && g.es == Sort(raw)
    requires x in edges
    ensures x.0 in ma && x.1 in mb && 1 <= ma[x.0] <= g.nl < mb[x.1] <= g.nl + g.nr
    ensures (ma[x.0], mb[x.1]) in g.es
  {
    SortSorts(raw);
    var k :| 0 <= k < |edges| && edges[k] == x;
    assert raw[k] in EdgesOf(raw);
  }

  // ---------- the algorithm ----------

  class HopcroftKarp<VL(==, !new), VR(==, !new)> {
    var e: seq<Edge>
    var vl: map<VL, nat>
    var vr: map<VR, nat>
    var nl: nat  // how many left vertices `vl` numbers
    var nr: nat  // how many right vertices `vr` numbers
    var pair: seq<nat>
    var dist: seq<nat>

    /** Numbers the vertices in order of first appearance, left ones first, and sorts the edges. */
    constructor (edges: seq<(VL, VR)>)
      requires |Appearance(Lefts(edges))| + 1 < INF
      ensures Valid() && MatchedLeft(pair, nl) == {}
      ensures nl == |Appearance(Lefts(edges))| && nr == |Appearance(Rights(edges))|
      ensures Numbers(vl, Lefts(edges), 1) && Numbers(vr, Rights(edges), nl + 1)
      ensures exists raw :: |raw| == |edges| && Numbered(edges, vl, vr, raw, |edges|) && e == Sort(raw)
    {
      hide Appearance, Numbers, Numbering, Sorted, Paired, Bipartite, Pairing;
      var left, count := NumberLeft<VL, VR>(edges);
      var right, tot, raw := NumberRight<VL, VR>(edges, left, count);
      vl, vr, nl, nr := left, right, count, tot - count;
      e := Sort(raw);
      dist := seq(count + 1, _ => 0);
      pair := seq(tot + 1, _ => NIL);
      new;
      NumbersOnce(vl, Lefts(edges), 1);
      NumbersOnce(vr, Rights(edges), nl + 1);
      StartsPaired(edges, vl, vr, raw, nl, nr, pair);
    }

    /** The constructor's first loop. */
    static method NumberLeft<A(==, !new), B>(edges: seq<(A, B)>) returns (left: map<A, nat>, tot: nat)
      ensures Numbers(left, Lefts(edges), 1) && tot == |Appearance(Lefts(edges))|
    {
      hide Appearance, Numbers;
      left, tot := map[], 0;
      NoneNumbered(Lefts(edges), 1);
      for i := 0 to |edges|
        invariant Numbers(left, Lefts(edges)[..i], 1) && tot == |Appearance(Lefts(edges)[..i])|
      {
        assert Lefts(edges)[..i + 1] == Lefts(edges)[..i] + [edges[i].0];
        NumbersNext(left, Lefts(edges)[..i], 1, edges[i].0);
        if edges[i].0 !in left {
          tot := tot + 1;
          left := left[edges[i].0 := tot];
        }
      }
      assert Lefts(edges)[..|edges|] == Lefts(edges);
    }

    /** The constructor's second loop: numbers go on from `count`. */
    static method NumberRight<A(==, !new), B(==, !new)>(edges: seq<(A, B)>, left: map<A, nat>, count: nat)
        returns (right: map<B, nat>, tot: nat, raw: seq<Edge>)
      requires Numbers(left, Lefts(edges), 1)
      ensures Numbers(right, Rights(edges), count + 1) && tot == count + |Appearance(Rights(edges))|
      ensures |raw| == |edges| && Numbered(edges, left, right, raw, |edges|)
    {
      hide Appearance, Numbers;
      right, tot, raw := map[], count, [];
      NoneNumbered(Rights(edges), count + 1);
      for i := 0 to |edges|
        invariant Numbers(right, Rights(edges)[..i], count + 1) && tot == count + |Appearance(Rights(edges)[..i])|
        invariant |raw| == i && Numbered(edges, left, right, raw, i)
      {
        ghost var before := right;
        assert Rights(edges)[..i + 1] == Rights(edges)[..i] + [edges[i].1];
        NumbersNext(right, Rights(edges)[..i], count + 1, edges[i].1);
        LeftNumbered(edges, left, i);
        if edges[i].1 !in right {
          tot := tot + 1;
          right := right[edges[i].1 := tot];
        }
        NumberedNext(edges, left, before, right, raw, i);
        raw := raw + [(left[edges[i].0], right[edges[i].1])];
      }
      assert Rights(edges)[..|edges|] == Rights(edges);
    }

    ghost function G(): Graph
      reads this
    {
      Graph(e, nl, nr)
    }

    /** The numbered graph; the sizes stay below the marker for "unreached". */
    ghost predicate Valid()
      reads this
    {
      && Sorted(e) && |dist| == nl + 1 && nl + 1 < INF
      && Paired(pair, G())
    }

    /** The first edge of `v` in the sorted list. */
    method FirstEdge(v: nat) returns (i: nat)
      requires Bipartite(G())
      ensures i <= |e|
      ensures forall j | 0 <= j < i :: e[j].0 < v
      ensures i < |e| ==> e[i].0 >= v
    {
      i := UpperBound(e, (v, 0));
      assert forall j | 0 <= j < i :: e[j] in G().es && !Less((v, 0), e[j]);
    }

    /** Layers the left vertices by alternating distance from the free ones; true when NIL is layered,
        that is, when some augmenting path exists. */
    method Bfs() returns (found: bool)
      requires Valid()
      modifies this`dist
      ensures Valid()
      ensures Layers(dist, pair, G()) && Tight(dist, pair, G())
      ensures found <==> dist[NIL] != INF
    {
      ghost var g := G();
      var queue := Seed();
      SeededStarts(dist, pair, g, queue);
      ghost var d: nat, k: nat := 0, |queue|;
      while |queue| > 0
        invariant |dist| == nl + 1 && Layering(dist, pair, g, queue, d, k)
        decreases Unreached(dist) + |queue|
      {
        var v := queue[0];
        ghost var rest := queue;
        queue := queue[1..];
        if v != NIL {
          queue := Expand(v, queue, rest, d, k);
          d, k := TailLayer(d, k), TailCount(k, |rest|);
        } else {
          ExpandStart(dist, pair, g, rest, d, k, 0);
          d, k := TailLayer(d, k), TailCount(k, |rest|);
          ExpandEnd(dist, pair, g, queue, d, k, v, 0);
        }
      }
      LayeringDone(dist, pair, g, d, k);
      found := dist[NIL] != INF;
    }

    /** The first part of `Bfs`: free left vertices make up layer 0. */
    method Seed() returns (queue: seq<nat>)
      requires Valid()
      modifies this`dist
      ensures |dist| == nl + 1 && dist[NIL] == INF
      ensures Seeded(dist, pair, queue, nl + 1)
    {
      queue := [];
      for v := 1 to nl + 1
        invariant |dist| == nl + 1 && Seeded(dist, pair, queue, v)
      {
        if pair[v] == NIL {
          dist := dist[v := 0];
          queue := queue + [v];
        } else {
          dist := dist[v := INF];
        }
      }
      dist := dist[NIL := INF];
    }

    /** The loop of `Bfs` over the edges of `v`, the vertex just taken from the queue `rest`. */
    method Expand(v: nat, tail: seq<nat>, ghost rest: seq<nat>, ghost d: nat, ghost k: nat) returns (queue: seq<nat>)
      requires Valid() && rest != [] && v == rest[0] != NIL && tail == rest[1..]
      requires Layering(dist, pair, G(), rest, d, k)
      modifies this`dist
      ensures |dist| == nl + 1
      ensures Layering(dist, pair, G(), queue, TailLayer(d, k), TailCount(k, |rest|))
      ensures Unreached(dist) + |queue| == old(Unreached(dist)) + |tail|
    {
      ghost var g, d', k', size := G(), TailLayer(d, k), TailCount(k, |rest|), Unreached(dist) + |tail|;
      var layer := dist;
      queue := tail;
      var it := FirstEdge(v);
      ghost var lo := it;
      ExpandStart(layer, pair, g, rest, d, k, it);
      while it < |e| && e[it].0 == v
        invariant lo <= it <= |e| && |layer| == nl + 1 && (lo < it ==> e[it - 1].0 == v)
        invariant Expanding(layer, pair, g, queue, d', k', v, it)
        invariant Unreached(layer) + |queue| == size
      {
        assert e[it] in g.es;
        var w := pair[e[it].1];
        if layer[w] == INF {
          ReachNew(layer, pair, g, queue, d', k', v, it, w);
          queue := queue + [w];
          layer := layer[w := layer[v] + 1];
        } else {
          ReachKnown(layer, pair, g, queue, d', k', v, it);
        }
        it := it + 1;
      }
      ScanEnd(layer, pair, g, queue, d', k', v, lo, it);
      dist := layer;
      assert G() == g;
    }

    /** Looks along the layers for an augmenting path from `v` and flips it. `layer` and `base` are the layers and the
        pairing the sweep started from. */
    method Dfs(v: nat, ghost layer: seq<nat>, ghost base: seq<nat>) returns (ok: bool)
      requires Valid() && v <= nl && Bounded(dist)
      modifies this`pair, this`dist
      decreases INF - dist[v]
      ensures Searched(old(dist), dist, old(pair), pair, G(), layer, base, v, ok)
    {
      hide Sorted, Pruned, Partners;
      ghost var d0, p0, g := dist, pair, G();
      if v == NIL {
        SearchNil(dist, pair, g, layer, base);
        return true;
      }
      var it := FirstEdge(v);
      ghost var lo := it;
      SearchStart(dist, pair, g, layer, base, v, lo);
      while it < |e| && e[it].0 == v
        invariant pair == p0 && Searching(d0, dist, p0, g, layer, base, v, lo, it)
      {
        assert e[it] in g.es;
        if dist[pair[e[it].1]] == dist[v] + 1 {
          ghost var d1, u := dist, e[it].1;
          ok := Dfs(pair[e[it].1], layer, base);
          if ok {
            SearchSucceeded(d0, d1, dist, p0, pair, g, layer, base, v, u);
            pair := pair[e[it].1 := v];
            pair := pair[v := e[it].1];
            return true;
          }
          SearchFailed(d0, d1, dist, p0, g, layer, base, v, lo, it);
        } else {
          SearchSkip(d0, dist, p0, g, layer, base, v, lo, it);
        }
        it := it + 1;
      }
      ScanComplete(e, v, lo, it);
      SearchExhausted(d0, dist, p0, g, layer, base, v, lo, it);
      dist := dist[v := INF];
      return false;
    }

    /** Augments until no augmenting path is left. */
    method Execute() returns (matching: nat, res: seq<bool>, ghost phases: nat)
      requires Valid()
      modifies this`pair, this`dist
      ensures Valid()
      ensures |MatchedLeft(pair, nl)| == |old(MatchedLeft(pair, nl))| + matching
      ensures phases <= matching && phases * phases <= 4 * nl + 1
      ensures forall m | IsMatching(m, e) :: |m| <= |MatchedLeft(pair, nl)|
      ensures Marks(res, e, pair, |e|)
    {
      matching, phases := AugmentAll();
      res := seq(|e|, _ => false);
      for idx := 0 to |e|
        invariant Marks(res, e, pair, idx)
      {
        assert e[idx] in G().es;
        res := res[idx := pair[e[idx].0] == e[idx].1];
      }
    }

    /** The phase loop: each phase gains an edge at least and makes the shortest augmenting paths longer. */
    method AugmentAll() returns (matching: nat, ghost phases: nat)
      requires Valid()
      modifies this`pair, this`dist
      ensures Valid() && e == old(e)
      ensures |MatchedLeft(pair, nl)| == |old(MatchedLeft(pair, nl))| + matching
      ensures phases <= matching && phases * phases <= 4 * nl + 1
      ensures forall m | IsMatching(m, e) :: |m| <= |MatchedLeft(pair, nl)|
    {
      hide Phases, Layers, Tight, Paired, Sorted, MatchedLeft, IsMatching;
      matching, phases := 0, 0;
      ghost var p0, g := pair, G();
      ghost var sizes: seq<nat> := [|MatchedLeft(pair, nl)|];
      var more := Bfs();
      FirstPhase(dist, pair, g);
      while more
        invariant Valid() && G() == g && phases <= matching && |sizes| == phases + 1
        invariant |MatchedLeft(pair, nl)| == |MatchedLeft(p0, nl)| + matching == sizes[phases]
        invariant Layers(dist, pair, g) && Tight(dist, pair, g) && (more <==> dist[NIL] != INF)
        invariant Phases(g, sizes) && dist[NIL] > phases
        decreases nl - |MatchedLeft(pair, nl)|
      {
        ghost var layer, base := dist, pair;
        var gained := Sweep();
        ghost var given := dist;
        matching, phases := matching + gained, phases + 1;
        MatchedFew(pair, nl);
        more := Bfs();
        NilRises(layer, base, given, pair, g, dist);
        NextPhase(dist, pair, g, sizes);
        sizes := sizes + [|MatchedLeft(pair, nl)|];
      }
      NoAugmentingPathMeansMaximum(dist, pair, g);
      FewPhases(g, pair, sizes);
    }

    /** The body of the phase loop: one search from every free left vertex. */
    method Sweep() returns (gained: nat)
      requires Valid() && Layers(dist, pair, G()) && Tight(dist, pair, G()) && dist[NIL] != INF
      modifies this`pair, this`dist
      ensures Valid() && G() == old(G()) && gained > 0
      ensures |MatchedLeft(pair, nl)| == |old(MatchedLeft(pair, nl))| + gained
      ensures Swept(old(dist), old(pair), dist, pair, G())
    {
      hide Pruned, Layers, Tight, Paired, Sorted, MatchedLeft, Searched;
      gained := 0;
      ghost var layer, p0, g := dist, pair, G();
      PrunedRefl(layer, pair, g);
      SweepStart(layer, pair, g);
      for v := 1 to nl + 1
        invariant G() == g && Sorted(e) && nl + 1 < INF && |pair| == nl + nr + 1
        invariant Sweeping(layer, p0, dist, pair, g, v, gained)
      {
        if pair[v] == NIL {
          ghost var d1, p1 := dist, pair;
          var ok := Dfs(v, layer, p0);
          SweepStep(layer, p0, d1, p1, dist, pair, g, v, gained, ok);
          PairedRange(pair, g);
          if ok { gained := gained + 1; }
        }
      }
      SweepGains(layer, p0, dist, pair, g, gained);
    }
  }

  lemma SweepStart(layer: seq<nat>, pair: seq<nat>, g: Graph)
    requires Paired(pair, g) && Layers(layer, pair, g)
    ensures |layer| == g.nl + 1 && Bounded(layer) && |pair| == g.nl + g.nr + 1
  {
  }

  lemma MatchedFew(pair: seq<nat>, nl: nat)
    ensures |MatchedLeft(pair, nl)| <= nl
  {
    SubsetSize(MatchedLeft(pair, nl), Below(nl + 1) - {0});
  }

  lemma FirstPhase(dist: seq<nat>, pair: seq<nat>, g: Graph)
    requires Paired(pair, g) && Layers(dist, pair, g) && Tight(dist, pair, g)
    ensures dist[NIL] > 0 && Phases(g, [|MatchedLeft(pair, g.nl)|])
  {
    LongPathsLackLittle(dist, pair, g, 0);
  }

  lemma NextPhase(dist: seq<nat>, pair: seq<nat>, g: Graph, sizes: seq<nat>)
    requires Paired(pair, g) && Layers(dist, pair, g) && Tight(dist, pair, g)
    requires Phases(g, sizes) && sizes != [] && dist[NIL] > |sizes| && sizes[|sizes| - 1] < |MatchedLeft(pair, g.nl)|
    ensures Phases(g, sizes + [|MatchedLeft(pair, g.nl)|])
  {
    hide LacksLittle, Layers, Tight, Paired, MatchedLeft;
    LongPathsLackLittle(dist, pair, g, |sizes|);
    var n, next := |sizes|, sizes + [|MatchedLeft(pair, g.nl)|];
    forall i, j | 0 <= i <= j < |next| ensures next[i] + (j - i) <= next[j] {
      if j == n && i < n { assert sizes[i] + (n - 1 - i) <= sizes[n - 1]; }
    }
  }

  /** How the marks follow the input: edges go by the first appearance of their left vertices, and at one left vertex by
      that of their right vertices. */
  ghost predicate InTurn<A, B>(edges: seq<(A, B)>, sorted: seq<(A, B)>, i: int, j: int) {
    0 <= i < j < |sorted| ==>
      || sorted[i] == sorted[j] || MetBefore(Lefts(edges), sorted[i].0, sorted[j].0)
      || (sorted[i].0 == sorted[j].0 && MetBefore(Rights(edges), sorted[i].1, sorted[j].1))
  }

  /** `sorted` is the input in that order. */
  ghost predicate ByAppearance<A, B>(edges: seq<(A, B)>, sorted: seq<(A, B)>) {
    multiset(sorted) == multiset(edges) && |sorted| == |edges| && forall i, j :: InTurn(edges, sorted, i, j)
  }

  ghost predicate EndsNumbered<A, B>(ma: map<A, nat>, mb: map<B, nat>, x: (A, B), e: Edge) {
    x.0 in ma && x.1 in mb && e == (ma[x.0], mb[x.1])
  }

  ghost predicate AllNumbered<A, B>(ma: map<A, nat>, mb: map<B, nat>, xs: seq<(A, B)>, es: seq<Edge>) {
    |xs| == |es| && forall i | 0 <= i < |xs| :: EndsNumbered(ma, mb, xs[i], es[i])
  }

  /** The input in the order of the sorted edges. */
  lemma SortedInput<A(!new), B(!new)>(edges: seq<(A, B)>, ma: map<A, nat>, mb: map<B, nat>, raw: seq<Edge>, nl: nat, nr: nat) returns (sorted: seq<(A, B)>)
    requires Numbers(ma, Lefts(edges), 1) && Numbers(mb, Rights(edges), nl + 1)
    requires Numbering(ma, 1, nl + 1) && Numbering(mb, nl + 1, nl + nr + 1)
    requires |raw| == |edges| && Numbered(edges, ma, mb, raw, |edges|)
    ensures ByAppearance(edges, sorted) && AllNumbered(ma, mb, sorted, Sort(raw))
  {
    var belongs := (x: (A, B), e: Edge) => EndsNumbered(ma, mb, x, e);
    sorted := SortBeside(raw, edges);
    SortedBelong(belongs, raw, edges);
    SortSorts(raw);
    var es := Sort(raw);
    assert forall i | 0 <= i < |sorted| :: belongs(sorted[i], es[i]);
    hide Numbers, Numbering, MetBefore, Sort, SortBeside;
    forall i, j ensures InTurn(edges, sorted, i, j) {
      if 0 <= i < j < |sorted| {
        var x, y := sorted[i], sorted[j];
        assert InOrder(es, i, j) && EndsNumbered(ma, mb, x, es[i]) && EndsNumbered(ma, mb, y, es[j]);
        SameNumbers(ma, mb, nl, nr, x, y);
        if ma[x.0] < ma[y.0] {
          NumbersOrder(ma, Lefts(edges), 1, x.0, y.0);
        } else if mb[x.1] < mb[y.1] {
          NumbersOrder(mb, Rights(edges), nl + 1, x.1, y.1);
        }
      }
    }
  }

  lemma SameNumbers<A(!new), B(!new)>(ma: map<A, nat>, mb: map<B, nat>, nl: nat, nr: nat, x: (A, B), y: (A, B))
    requires Numbering(ma, 1, nl + 1) && Numbering(mb, nl + 1, nl + nr + 1)
    requires x.0 in ma && y.0 in ma && x.1 in mb && y.1 in mb
    ensures ma[x.0] == ma[y.0] ==> x.0 == y.0
    ensures mb[x.1] == mb[y.1] ==> x.1 == y.1
  {
    assert NoClash(ma, x.0, y.0) && NoClash(mb, x.1, y.1);
  }

  /** A position is marked just if its edge is in the matching. */
  lemma MarksSelected<A, B>(edges: seq<(A, B)>, ma: map<A, nat>, mb: map<B, nat>, sorted: seq<(A, B)>, es: seq<Edge>, pair: seq<nat>, res: seq<bool>)
    requires forall x: (A, B) | x in edges :: x.0 in ma && x.1 in mb && ma[x.0] < |pair|
    requires multiset(sorted) == multiset(edges) && AllNumbered(ma, mb, sorted, es) && Marks(res, es, pair, |es|)
    ensures |res| == |sorted| && forall i | 0 <= i < |res| :: res[i] <==> sorted[i] in InputSelected(edges, ma, mb, pair)
  {
    forall i | 0 <= i < |res| ensures res[i] <==> sorted[i] in InputSelected(edges, ma, mb, pair) {
      assert EndsNumbered(ma, mb, sorted[i], es[i]) && sorted[i] in multiset(edges);
    }
  }

  /** `hopcroft_karp`: the returned count is the size of a largest matching among the input edges. The edges in `res`, which
      follows the input by first appearance of the vertices, are those of such a matching, `best`; distinct edges are marked
      as many times as the count says. */
  method HopcroftKarpMatching<VL(==, !new), VR(==, !new)>(edges: seq<(VL, VR)>)
      returns (count: nat, res: seq<bool>, ghost best: set<(VL, VR)>, ghost sorted: seq<(VL, VR)>)
    requires |Appearance(Lefts(edges))| + 1 < INF
    ensures InputMatching(best, edges) && |best| == count
    ensures forall m | InputMatching(m, edges) :: |m| <= count
    ensures ByAppearance(edges, sorted) && |res| == |edges|
    ensures forall i | 0 <= i < |res| :: res[i] <==> sorted[i] in best
    ensures best == set i | 0 <= i < |res| && res[i] :: sorted[i]
    ensures (forall i, j | 0 <= i < j < |edges| :: edges[i] != edges[j]) ==> CountTrue(res) == count
  {
    hide Appearance, Numbers, Numbering, Numbered, Paired, IsMatching, InputMatching, Marks, MatchedLeft, AllNumbered, InTurn;
    var hk := new HopcroftKarp(edges);
    ghost var raw :| |raw| == |edges| && Numbered(edges, hk.vl, hk.vr, raw, |edges|) && hk.e == Sort(raw);
    ghost var phases;
    ghost var ma, mb, g := hk.vl, hk.vr, hk.G();
    NumbersOnce(ma, Lefts(edges), 1);
    NumbersOnce(mb, Rights(edges), g.nl + 1);
    sorted := SortedInput(edges, ma, mb, raw, g.nl, g.nr);
    count, res, phases := hk.Execute();
    Outcome(edges, ma, mb, raw, g, hk.pair, count, res);
    best := InputSelected(edges, ma, mb, hk.pair);
    MarksSelected(edges, ma, mb, sorted, g.es, hk.pair, res);
    MarkedIs(edges, best, sorted, res);
  }

  lemma MarkedIs<A(!new), B(!new)>(edges: seq<(A, B)>, best: set<(A, B)>, sorted: seq<(A, B)>, res: seq<bool>)
    requires multiset(sorted) == multiset(edges) && |res| == |sorted| && InputMatching(best, edges)
    requires forall i | 0 <= i < |res| :: res[i] <==> sorted[i] in best
    ensures best == set i | 0 <= i < |res| && res[i] :: sorted[i]
  {
    forall x | x in best ensures exists i :: 0 <= i < |res| && res[i] && sorted[i] == x {
      assert x in multiset(sorted);
      var i :| 0 <= i < |sorted| && sorted[i] == x;
      assert res[i];
    }
  }

  /** What a maximum matching of the numbered graph says about the input. */
  lemma Outcome<VL(!new), VR(!new)>(edges: seq<(VL, VR)>, ma: map<VL, nat>, mb: map<VR, nat>, raw: seq<Edge>, g: Graph, pair: seq<nat>, count: nat,
        res: seq<bool>)
    requires Numbering(ma, 1, g.nl + 1) && Numbering(mb, g.nl + 1, g.nl + g.nr + 1)
    requires |raw| == |edges| && Numbered(edges, ma, mb, raw, |edges|) && g.es == Sort(raw)
    requires Paired(pair, g) && |MatchedLeft(pair, g.nl)| == count && Marks(res, g.es, pair, |g.es|)
    requires forall m | IsMatching(m, g.es) :: |m| <= count
    ensures forall x: (VL, VR) | x in edges :: x.0 in ma && x.1 in mb && ma[x.0] < |pair|
    ensures InputMatching(InputSelected(edges, ma, mb, pair), edges) && |InputSelected(edges, ma, mb, pair)| == count
    ensures |res| == |edges| && forall m | InputMatching(m, edges) :: |m| <= count
    ensures (forall i, j | 0 <= i < j < |edges| :: edges[i] != edges[j]) ==> CountTrue(res) == count
  {
    hide Paired, MatchedLeft, IsMatching, InputMatching;
    InputMaximum(edges, ma, mb, raw, g, count);
    forall x | x in edges ensures x.0 in ma && x.1 in mb && ma[x.0] < |pair| {
      SelectedInput(edges, ma, mb, raw, g, x);
      PairedRange(pair, g);
    }
    hide Numbering, Numbered, Marks, CountTrue;
    InputAttained(edges, ma, mb, raw, g, pair);
    SortSorts(raw);
    MarksSize(res, g.es, pair, |g.es|);
    if forall i, j | 0 <= i < j < |edges| :: edges[i] != edges[j] {
      DistinctSorted(edges, ma, mb, raw, g);
      MarksCountMatching(res, pair, g);
    }
  }

  lemma PairedRange(pair: seq<nat>, g: Graph)
    requires Paired(pair, g)
    ensures |pair| == g.nl + g.nr + 1
  {
  }

  lemma MarksSize(res: seq<bool>, es: seq<Edge>, pair: seq<nat>, n: nat)
    requires Marks(res, es, pair, n)
    ensures |res| == |es|
  {
  }

  lemma DistinctSorted<A(!new), B(!new)>(edges: seq<(A, B)>, ma: map<A, nat>, mb: map<B, nat>, raw: seq<Edge>, g: Graph)
    requires Numbering(ma, 1, g.nl + 1) && Numbering(mb, g.nl + 1, g.nl + g.nr + 1)
    requires |raw| == |edges| && Numbered(edges, ma, mb, raw, |edges|) && g.es == Sort(raw)
    requires forall i, j | 0 <= i < j < |edges| :: edges[i] != edges[j]
    ensures forall i, j | 0 <= i < j < |g.es| :: g.es[i] != g.es[j]
  {
    SortSorts(raw);
    forall i, j | 0 <= i < j < |raw| ensures raw[i] != raw[j] {
      assert edges[i] != edges[j];
      assert NoClash(ma, edges[i].0, edges[j].0) && NoClash(mb, edges[i].1, edges[j].1);
    }
    DistinctMultiset(raw, g.es);
  }

  /** Being free of duplicates only depends on the multiset. */
  lemma DistinctMultiset(a: seq<Edge>, b: seq<Edge>)
    requires multiset(a) == multiset(b)
    requires forall i, j | 0 <= i < j < |a| :: a[i] != a[j]
    ensures forall i, j | 0 <= i < j < |b| :: b[i] != b[j]
  {
    forall x ensures multiset(a)[x] <= 1 { OnceEach(a, x); }
    forall i, j | 0 <= i < j < |b| ensures b[i] != b[j] {
      assert b == b[..j] + b[j..];
      assert multiset(b)[b[j]] == multiset(b[..j])[b[j]] + multiset(b[j..])[b[j]];
      assert b[j..][0] == b[j];
      assert b[j] !in b[..j];
      assert b[..j][i] == b[i];
    }
  }

  lemma {:induction false} OnceEach(a: seq<Edge>, x: Edge)
    requires forall i, j | 0 <= i < j < |a| :: a[i] != a[j]
    ensures multiset(a)[x] <= 1
  {
    if a != [] {
      var n := |a| - 1;
      OnceEach(a[..n], x);
      assert a == a[..n] + [a[n]];
      if a[n] == x { assert x !in a[..n]; }
    }
  }
}
