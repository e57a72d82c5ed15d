/** Tarjan's strongly connected components: a recursive depth-first search with an explicit stack of
    vertices whose component is not known yet, and low links that find the roots of components. */
module StronglyConnected {
  import opened Counting
  import opened Paths
  import opened SortedEdges
  import opened VertexNumbers

  const INF: nat := 0x7fffffff

  /** The state of the search, low links aside: visiting order, component numbers, stack and counters. */
  datatype State = State(num: seq<nat>, comps: seq<nat>, stack: seq<nat>, index: nat, comp: nat)

  /** The graph: `n` vertices and the edges between them. */
  datatype Digraph = Digraph(n: nat, es: set<Edge>)

  ghost predicate Mutual(es: set<Edge>, a: nat, b: nat) {
    Reach(es, a, b) && Reach(es, b, a)
  }

  ghost predicate InGraph(g: Digraph) {
    forall e | e in g.es :: e.0 < g.n && e.1 < g.n
  }

  ghost predicate White(s: State, v: nat) {
    v < |s.num| && s.num[v] == INF
  }

  ghost predicate Done(s: State, v: nat) {
    v < |s.num| && v < |s.comps| && s.num[v] != INF && s.comps[v] != INF
  }

  ghost predicate Seen(s: State, v: nat) {
    v < |s.num| && s.num[v] != INF
  }

  /** Visited, but its component is not known yet. */
  ghost predicate Open(s: State, v: nat) {
    v < |s.num| && v < |s.comps| && s.num[v] != INF && s.comps[v] == INF
  }

  // ---------- the invariant ----------

  /** Sizes, visiting numbers, and which vertices are stacked. */
  ghost predicate Shape(g: Digraph, s: State) {
    && |s.num| == |s.comps| == g.n < INF
    && s.index == |SeenSet(s)| && s.comp <= |DoneSet(s)|
    && (forall v | 0 <= v < g.n :: s.num[v] == INF || s.num[v] < s.index)
    && (forall v | 0 <= v < g.n :: Done(s, v) ==> s.comps[v] < s.comp)
    && (forall v | 0 <= v < g.n :: Open(s, v) ==> v in s.stack)
  }

  ghost function SeenSet(s: State): (r: set<nat>) {
    set v: nat | v < |s.num| && s.num[v] != INF
  }

  ghost function DoneSet(s: State): (r: set<nat>) {
    set v: nat | v < |s.num| && Done(s, v)
  }

  /** The stack holds seen vertices without a component, in visiting order. */
  ghost predicate StackOrder(s: State) {
    && (forall i | 0 <= i < |s.stack| :: Open(s, s.stack[i]))
    && (forall i, j :: Later(s, i, j))
  }

  ghost predicate Later(s: State, i: int, j: int) {
    0 <= i < j < |s.stack| && s.stack[i] < |s.num| && s.stack[j] < |s.num| ==> s.num[s.stack[i]] < s.num[s.stack[j]]
  }

  /** Edges out of finished vertices: nothing unseen behind a vertex the search has left, and from a vertex with a
      component only to vertices with the same or an earlier component. */
  ghost predicate EdgeOk(s: State, gray: set<nat>, e: Edge) {
    && (Seen(s, e.0) && e.0 !in gray ==> Seen(s, e.1))
    && (Done(s, e.0) ==> Done(s, e.1) && s.comps[e.1] <= s.comps[e.0])
  }

  /** From every stacked vertex the search can get back to an active vertex visited no later. */
  ghost predicate Anchored(g: Digraph, s: State, gray: set<nat>, x: nat) {
    exists y :: AnchoredAt(g, s, gray, x, y)
  }

  ghost predicate AnchoredAt(g: Digraph, s: State, gray: set<nat>, x: nat, y: nat) {
    y in gray && Before(s, y, x) && Reach(g.es, x, y)
  }

  ghost predicate Before(s: State, y: nat, x: nat) {
    x < |s.num| && y < |s.num| && s.num[y] <= s.num[x]
  }

  /** Every active vertex reaches all that was stacked after it. */
  ghost predicate Ahead(g: Digraph, s: State, y: nat, x: nat) {
    Before(s, y, x) ==> Reach(g.es, y, x)
  }

  /** Components found so far are the classes of mutual reachability. */
  ghost predicate SameComponent(g: Digraph, s: State, a: nat, b: nat) {
    Done(s, a) && Done(s, b) ==> (s.comps[a] == s.comps[b] <==> Mutual(g.es, a, b))
  }

  ghost predicate HasMember(s: State, k: nat) {
    exists v: nat :: Done(s, v) && s.comps[v] == k
  }

  /** What holds whenever the search enters or leaves a vertex; `gray` are the vertices being visited. */
  ghost predicate Inv(g: Digraph, s: State, gray: set<nat>) {
    && InGraph(g) && Shape(g, s) && StackOrder(s)
    && (forall y | y in gray :: Open(s, y))
    && (forall e {:trigger EdgeOk(s, gray, e)} | e in g.es :: EdgeOk(s, gray, e))
    && (forall x {:trigger Anchored(g, s, gray, x)} | Open(s, x) :: Anchored(g, s, gray, x))
    && (forall y, x {:trigger Ahead(g, s, y, x)} | y in gray && Open(s, x) :: Ahead(g, s, y, x))
    && (forall a: nat, b: nat :: SameComponent(g, s, a, b))
    && (forall k: nat {:trigger HasMember(s, k)} | k < s.comp :: HasMember(s, k))
  }

  // ---------- entering a vertex ----------

  function Entered(s: State, v: nat): (t: State)
    requires v < |s.num| == |s.comps|
  {
    State(s.num[v := s.index], s.comps[v := INF], s.stack + [v], s.index + 1, s.comp)
  }

  lemma EnterKeepsInv(g: Digraph, s: State, gray: set<nat>, v: nat)
    requires Inv(g, s, gray) && White(s, v)
    requires forall y | y in gray :: Reach(g.es, y, v)
    ensures Inv(g, Entered(s, v), gray + {v})
  {
    var t, gray' := Entered(s, v), gray + {v};
    EnterShape(g, s, v);
    EnterStack(g, s, v);
    forall e | e in g.es ensures EdgeOk(t, gray', e) { assert EdgeOk(s, gray, e); }
    forall x | Open(t, x) ensures Anchored(g, t, gray', x) {
      if x == v {
        ReachRefl(g.es, v);
        assert AnchoredAt(g, t, gray', v, v);
      } else {
        assert Anchored(g, s, gray, x);
        var y: nat :| AnchoredAt(g, s, gray, x, y);
        assert Open(s, y);
        assert AnchoredAt(g, t, gray', x, y);
      }
    }
    forall y, x | y in gray' && Open(t, x) ensures Ahead(g, t, y, x) {
      ReachRefl(g.es, v);
      if x != v && y != v { assert Open(s, x) && Open(s, y) && Ahead(g, s, y, x); }
    }
    forall a: nat, b: nat ensures SameComponent(g, t, a, b) { assert SameComponent(g, s, a, b); }
    forall k: nat | k < t.comp ensures HasMember(t, k) {
      assert HasMember(s, k);
      var x: nat :| Done(s, x) && s.comps[x] == k;
      assert Done(t, x) && t.comps[x] == k;
    }
  }

  lemma RoomFor(g: Digraph, s: State, v: nat)
    requires |s.num| == g.n && White(s, v)
    ensures |SeenSet(s)| < g.n
  {
    SubsetSize(SeenSet(s), Below(g.n) - {v});
  }

  lemma EnterShape(g: Digraph, s: State, v: nat)
    requires Shape(g, s) && White(s, v)
    ensures Shape(g, Entered(s, v)) && s.index < g.n
  {
    var t := Entered(s, v);
    RoomFor(g, s, v);
    assert SeenSet(t) == SeenSet(s) + {v};
    assert DoneSet(t) == DoneSet(s);
    forall x | 0 <= x < g.n ensures Open(t, x) ==> x in t.stack {
      if x != v && Open(t, x) { assert Open(s, x); }
    }
  }

  lemma EnterStack(g: Digraph, s: State, v: nat)
    requires Shape(g, s) && StackOrder(s) && White(s, v)
    ensures StackOrder(Entered(s, v))
  {
    var t := Entered(s, v);
    EnterShape(g, s, v);
    forall i | 0 <= i < |t.stack| ensures Open(t, t.stack[i]) {
      if i < |s.stack| { assert Open(s, s.stack[i]); }
    }
    forall i, j ensures Later(t, i, j) {
      if 0 <= i < j < |t.stack| {
        assert Open(s, s.stack[i]);
        if j < |s.stack| { assert Later(s, i, j) && Open(s, s.stack[j]); }
      }
    }
  }

  // ---------- visiting a vertex ----------

  /** The search went on from `s` to `t`: nothing seen is renumbered, components stay, the stack only grew. */
  ghost predicate Grew(s: State, t: State) {
    && |t.num| == |s.num| && |t.comps| == |s.comps| && s.index <= t.index
    && (forall x | 0 <= x < |s.num| :: Seen(s, x) ==> t.num[x] == s.num[x])
    && (forall x | 0 <= x < |s.num| :: !Seen(s, x) && Seen(t, x) ==> t.num[x] >= s.index)
    && (forall x | 0 <= x < |s.num| :: (Done(s, x) ==> Done(t, x) && t.comps[x] == s.comps[x]) && (Open(s, x) ==> Open(t, x)))
    && |s.stack| <= |t.stack| && t.stack[..|s.stack|] == s.stack
  }

  ghost predicate LowKept(s: State, l0: seq<nat>, l1: seq<nat>) {
    |l1| == |l0| == |s.num| && forall x | 0 <= x < |s.num| :: Seen(s, x) ==> l1[x] == l0[x]
  }

  /** The low link of `v` is the number of an open vertex that `v` reaches. */
  ghost predicate LowWitness(g: Digraph, s: State, low: nat, v: nat) {
    exists y :: LowAt(g, s, low, v, y)
  }

  ghost predicate LowAt(g: Digraph, s: State, low: nat, v: nat, y: nat) {
    Open(s, y) && s.num[y] == low && Reach(g.es, v, y)
  }

  /** An edge from a vertex opened since number `base` to one open before it is accounted for by `low`. */
  ghost predicate CrossOk(s: State, base: nat, low: nat, e: Edge) {
    Open(s, e.0) && base <= s.num[e.0] && Open(s, e.1) && s.num[e.1] < base ==> low <= s.num[e.1]
  }

  /** During the visit of `v`, entered in state `s0`, after its edges `tried`. */
  ghost predicate Visiting(g: Digraph, s0: State, s: State, low: nat, gray: set<nat>, v: nat, tried: set<Edge>) {
    && White(s0, v) && |s0.num| == |s0.comps| && Inv(g, s, gray + {v}) && Grew(Entered(s0, v), s)
    && (forall y | y in gray :: Open(s0, y) && s.num[y] < s0.index && Reach(g.es, y, v))
    && low <= s.num[v] && LowWitness(g, s, low, v)
    && (forall e {:trigger CrossOk(s, s0.index, low, e)} | e in g.es && (e.0 == v ==> e in tried) :: CrossOk(s, s0.index, low, e))
    && (forall e | e in tried :: e in g.es && e.0 == v && Seen(s, e.1))
  }

  /** What a visit of `v`, from state `s0`, promises about state `t` and the low link of `v`. */
  ghost predicate Visited(g: Digraph, s0: State, t: State, low: nat, gray: set<nat>, v: nat) {
    && Inv(g, t, gray) && Grew(s0, t) && Seen(t, v)
    && (if Done(t, v) then s0.index <= low else low <= t.num[v] && LowWitness(g, t, low, v))
    && (forall e {:trigger CrossOk(t, s0.index, low, e)} | e in g.es :: CrossOk(t, s0.index, low, e))
  }

  lemma GrewTrans(s: State, t: State, u: State)
    requires Grew(s, t) && Grew(t, u) && |s.num| == |s.comps|
    ensures Grew(s, u)
  {
    assert u.stack[..|s.stack|] == u.stack[..|t.stack|][..|s.stack|];
    forall x | 0 <= x < |s.num| ensures Seen(s, x) ==> u.num[x] == s.num[x] {
      if Seen(s, x) { assert Seen(t, x); }
    }
    forall x | 0 <= x < |s.num| ensures !Seen(s, x) && Seen(u, x) ==> u.num[x] >= s.index {
      if Seen(t, x) { assert u.num[x] == t.num[x]; }
    }
    forall x | 0 <= x < |s.num| ensures (Done(s, x) ==> Done(u, x) && u.comps[x] == s.comps[x]) && (Open(s, x) ==> Open(u, x)) {
      if Done(s, x) { assert Done(t, x); }
      if Open(s, x) { assert Open(t, x); }
    }
  }

  lemma VisitStart(g: Digraph, s: State, gray: set<nat>, v: nat)
    requires Inv(g, s, gray) && White(s, v)
    requires forall y | y in gray :: Reach(g.es, y, v)
    ensures Visiting(g, s, Entered(s, v), s.index, gray, v, {})
  {
    var t := Entered(s, v);
    EnterKeepsInv(g, s, gray, v);
    ReachRefl(g.es, v);
    assert LowAt(g, t, s.index, v, v);
    forall e | e in g.es && e.0 != v ensures CrossOk(t, s.index, s.index, e) {
      if Open(t, e.0) { assert Open(s, e.0); }
    }
  }

  /** An edge to a vertex that already has a component. */
  lemma EdgeToDone(g: Digraph, s0: State, s: State, low: nat, gray: set<nat>, v: nat, tried: set<Edge>, e: Edge)
    requires Visiting(g, s0, s, low, gray, v, tried) && e in g.es && e.0 == v && Done(s, e.1)
    ensures Visiting(g, s0, s, low, gray, v, tried + {e})
  {
    forall f | f in g.es && (f.0 == v ==> f in tried + {e}) ensures CrossOk(s, s0.index, low, f) {
      if f != e { assert CrossOk(s, s0.index, low, f); }
    }
  }

  /** An edge to an open vertex. */
  lemma EdgeToOpen(g: Digraph, s0: State, s: State, low: nat, gray: set<nat>, v: nat, tried: set<Edge>, e: Edge)
    requires Visiting(g, s0, s, low, gray, v, tried) && e in g.es && e.0 == v && Open(s, e.1)
    ensures Visiting(g, s0, s, Min(low, s.num[e.1]), gray, v, tried + {e})
  {
    var low' := Min(low, s.num[e.1]);
    forall f | f in g.es && (f.0 == v ==> f in tried + {e}) ensures CrossOk(s, s0.index, low', f) {
      if f != e { assert CrossOk(s, s0.index, low, f); }
    }
    ReachEdge(g.es, v, e.1);
    if low' != low { assert LowAt(g, s, low', v, e.1); }
  }

  function Min(a: nat, b: nat): (m: nat) {
    if b < a then b else a
  }

  /** An edge to an unseen vertex, which has been visited in turn. */
  lemma EdgeToWhite(g: Digraph, s0: State, s: State, t: State, low: nat, lowW: nat, gray: set<nat>, v: nat, tried: set<Edge>, e: Edge)
    requires Visiting(g, s0, s, low, gray, v, tried) && e in g.es && e.0 == v && White(s, e.1)
    requires Visited(g, s, t, lowW, gray + {v}, e.1)
    ensures Visiting(g, s0, t, Min(low, lowW), gray, v, tried + {e})
  {
    hide CrossOk, LowWitness, Reach, Entered;
    OpenBetween(g, s0, s, t, low, lowW, gray, v, tried, e.1);
    hide Inv, Grew, Open, Seen, Done;
    forall f | f in g.es && (f.0 == v ==> f in tried + {e}) ensures CrossOk(t, s0.index, Min(low, lowW), f) {
      CrossThrough(g, s0, s, t, low, lowW, gray, v, tried, e, f);
    }
    LowThrough(g, s0, s, t, low, lowW, gray, v, tried, e);
  }

  lemma OpenBetween(g: Digraph, s0: State, s: State, t: State, low: nat, lowW: nat, gray: set<nat>, v: nat, tried: set<Edge>, w: nat)
    requires Visiting(g, s0, s, low, gray, v, tried) && Visited(g, s, t, lowW, gray + {v}, w)
    ensures Open(s, v) && Open(t, v) && Grew(Entered(s0, v), t) && t.num[v] == s.num[v] && |s.num| == |t.num|
    ensures forall y | y in gray :: y < |t.num| && y < |s.num| && t.num[y] == s.num[y]
    ensures forall x | 0 <= x < |s.num| && Seen(s, x) :: Seen(t, x)
  {
    hide Reach, CrossOk, LowWitness, Shape;
    assert |Entered(s0, v).num| == |Entered(s0, v).comps|;
    hide Entered;
    assert Open(s, v) && Open(t, v);
    GrewTrans(Entered(s0, v), s, t);
  }

  lemma CrossThrough(g: Digraph, s0: State, s: State, t: State, low: nat, lowW: nat, gray: set<nat>, v: nat, tried: set<Edge>, e: Edge, f: Edge)
    requires Visiting(g, s0, s, low, gray, v, tried) && e in g.es && e.0 == v && White(s, e.1)
    requires Visited(g, s, t, lowW, gray + {v}, e.1)
    requires f in g.es && (f.0 == v ==> f in tried + {e})
    ensures CrossOk(t, s0.index, Min(low, lowW), f)
  {
    assert CrossOk(t, s.index, lowW, f);
    if f != e { assert CrossOk(s, s0.index, low, f); }
  }

  lemma LowThrough(g: Digraph, s0: State, s: State, t: State, low: nat, lowW: nat, gray: set<nat>, v: nat, tried: set<Edge>, e: Edge)
    requires Visiting(g, s0, s, low, gray, v, tried) && e in g.es && e.0 == v && White(s, e.1)
    requires Visited(g, s, t, lowW, gray + {v}, e.1)
    ensures LowWitness(g, t, Min(low, lowW), v)
  {
    var w := e.1;
    ReachEdge(g.es, v, w);
    if Done(t, w) || low <= lowW {
      assert Open(s, v);
      var y: nat :| LowAt(g, s, low, v, y);
      assert LowAt(g, t, low, v, y);
    } else {
      var y: nat :| LowAt(g, t, lowW, w, y);
      ReachTrans(g.es, v, w, y);
      assert LowAt(g, t, lowW, v, y);
    }
  }

  /** The vertex about to be visited is reached by every active one. */
  lemma ActiveReach(g: Digraph, s0: State, s: State, low: nat, gray: set<nat>, v: nat, tried: set<Edge>, w: nat)
    requires Visiting(g, s0, s, low, gray, v, tried) && (v, w) in g.es
    ensures forall y | y in gray + {v} :: Reach(g.es, y, w)
  {
    ReachEdge(g.es, v, w);
    forall y | y in gray ensures Reach(g.es, y, w) { ReachTrans(g.es, y, v, w); }
  }

  ghost function Unseen(s: State): (n: nat) {
    |set v: nat | v < |s.num| && s.num[v] == INF|
  }

  /** Which of the three cases an edge falls into. */
  lemma VisitRange(g: Digraph, s0: State, s: State, low: nat, gray: set<nat>, v: nat, tried: set<Edge>, e: Edge)
    requires Visiting(g, s0, s, low, gray, v, tried) && e in g.es
    ensures e.1 < g.n == |s.num| == |s.comps| && (White(s, e.1) || Open(s, e.1) || Done(s, e.1))
    ensures v < g.n && Inv(g, s, gray + {v})
  {
  }

  lemma VisitLow(g: Digraph, s0: State, s: State, low: nat, gray: set<nat>, v: nat, tried: set<Edge>)
    requires Visiting(g, s0, s, low, gray, v, tried)
    ensures v < |s.num| && low <= s.num[v]
  {
  }

  lemma VisitShrinks(g: Digraph, s0: State, s: State, low: nat, gray: set<nat>, v: nat, tried: set<Edge>)
    requires Inv(g, s0, gray) && Visiting(g, s0, s, low, gray, v, tried)
    ensures Unseen(s) < Unseen(s0)
  {
    EnterGrows(g, s0, v);
    GrewTrans(s0, Entered(s0, v), s);
    var before := set x: nat | x < |s0.num| && s0.num[x] == INF;
    var after := set x: nat | x < |s.num| && s.num[x] == INF;
    forall x | x in after ensures x in before - {v} {
      assert !Seen(s0, x);
      assert Open(s, v);
    }
    SubsetSize(after, before - {v});
  }

  // ---------- leaving a vertex ----------

  /** Opened since number `base`. */
  ghost predicate Top(s: State, base: nat, x: nat) {
    Open(s, x) && base <= s.num[x]
  }

  /** A vertex whose low link is older is not needed as an anchor: it leads further back. */
  lemma LeaveAnchors(g: Digraph, s0: State, s: State, low: nat, gray: set<nat>, v: nat, tried: set<Edge>, x: nat)
    requires Visiting(g, s0, s, low, gray, v, tried) && low < s.num[v] && Open(s, x)
    ensures Anchored(g, s, gray, x)
  {
    var gray' := gray + {v};
    assert Anchored(g, s, gray', x);
    var y: nat :| AnchoredAt(g, s, gray', x, y);
    if y == v {
      var z: nat :| LowAt(g, s, low, v, z);
      assert Anchored(g, s, gray', z);
      var r: nat :| AnchoredAt(g, s, gray', z, r);
      ReachTrans(g.es, v, z, r);
      ReachTrans(g.es, x, v, r);
      assert AnchoredAt(g, s, gray, x, r);
    } else {
      assert AnchoredAt(g, s, gray, x, y);
    }
  }

  lemma LeaveInv(g: Digraph, s0: State, s: State, low: nat, gray: set<nat>, v: nat, tried: set<Edge>)
    requires Visiting(g, s0, s, low, gray, v, tried) && low < s.num[v]
    requires forall e | e in g.es && e.0 == v :: e in tried
    ensures Inv(g, s, gray)
  {
    forall e | e in g.es ensures EdgeOk(s, gray, e) { assert EdgeOk(s, gray + {v}, e); }
    forall x | Open(s, x) ensures Anchored(g, s, gray, x) { LeaveAnchors(g, s0, s, low, gray, v, tried, x); }
  }

  lemma LeaveOpen(g: Digraph, s0: State, s: State, low: nat, gray: set<nat>, v: nat, tried: set<Edge>)
    requires Inv(g, s0, gray) && Visiting(g, s0, s, low, gray, v, tried) && low < s.num[v]
    requires forall e | e in g.es && e.0 == v :: e in tried
    ensures Visited(g, s0, s, low, gray, v)
  {
    EnterGrows(g, s0, v);
    GrewTrans(s0, Entered(s0, v), s);
    LeaveInv(g, s0, s, low, gray, v, tried);
    assert Open(s, v);
    forall e | e in g.es ensures CrossOk(s, s0.index, low, e) { }
  }

  lemma EnterGrows(g: Digraph, s: State, v: nat)
    requires Shape(g, s) && White(s, v)
    ensures Grew(s, Entered(s, v))
  {
  }

  /** When the low link of `v` is its own number, edges from what was opened since stay inside that or lead to
      finished components. */
  lemma TopClosed(g: Digraph, s0: State, s: State, low: nat, gray: set<nat>, v: nat, tried: set<Edge>, e: Edge)
    requires Visiting(g, s0, s, low, gray, v, tried)
    requires forall e | e in g.es && e.0 == v :: e in tried
    requires low == s.num[v] && e in g.es && (Top(s, s0.index, e.0) || Done(s, e.0))
    ensures Top(s, s0.index, e.1) || Done(s, e.1)
    ensures Done(s, e.0) ==> Done(s, e.1)
  {
    assert EdgeOk(s, gray + {v}, e);
    if Top(s, s0.index, e.0) {
      assert CrossOk(s, s0.index, low, e);
      assert e.0 !in gray;
    }
  }

  /** ... so all of it reaches back to `v`, and `v` reaches all of it. */
  lemma TopMutual(g: Digraph, s0: State, s: State, low: nat, gray: set<nat>, v: nat, tried: set<Edge>, x: nat)
    requires Visiting(g, s0, s, low, gray, v, tried)
    requires forall e | e in g.es && e.0 == v :: e in tried
    requires low == s.num[v] && Top(s, s0.index, x)
    ensures Mutual(g.es, x, v)
  {
    assert Ahead(g, s, v, x);
    assert Anchored(g, s, gray + {v}, x);
    var y: nat :| AnchoredAt(g, s, gray + {v}, x, y);
    var closed := iset z: nat | Top(s, s0.index, z) || Done(s, z);
    forall e | e in g.es && e.0 in closed ensures e.1 in closed {
      TopClosed(g, s0, s, low, gray, v, tried, e);
    }
    ReachClosed(g.es, closed, x, y);
    assert y !in gray;
  }

  /** Nothing finished reaches what is still open. */
  lemma DoneClosed(g: Digraph, s: State, gray: set<nat>, a: nat, b: nat)
    requires Inv(g, s, gray) && Done(s, a) && Reach(g.es, a, b)
    ensures Done(s, b)
  {
    var closed := iset z: nat | Done(s, z);
    forall e | e in g.es && e.0 in closed ensures e.1 in closed { assert EdgeOk(s, gray, e); }
    ReachClosed(g.es, closed, a, b);
  }

  function Labelled(comps: seq<nat>, xs: seq<nat>, c: nat): (r: seq<nat>) {
    seq(|comps|, i requires 0 <= i < |comps| => if i in xs then c else comps[i])
  }

  /** Popping the stack down to height `k`, giving what comes off component `comp`. */
  function Popped(s: State, k: nat): (t: State)
    requires k <= |s.stack|
  {
    State(s.num, Labelled(s.comps, s.stack[k..], s.comp), s.stack[..k], s.index, s.comp + 1)
  }

  /** `t` is `s` with everything opened since number `base` made one new component. */
  ghost predicate PopRel(s: State, t: State, base: nat) {
    && t.num == s.num && |t.comps| == |s.comps| && t.index == s.index && t.comp == s.comp + 1
    && (forall x | 0 <= x < |s.comps| :: t.comps[x] == if Top(s, base, x) then s.comp else s.comps[x])
  }

  /** What comes off is exactly what was opened since number `base`. */
  lemma PoppedTop(g: Digraph, s: State, k: nat, v: nat)
    requires Shape(g, s) && StackOrder(s) && k < |s.stack| && s.stack[k] == v
    ensures PopRel(s, Popped(s, k), s.num[v])
    ensures forall x: nat | x in s.stack[..k] :: Open(s, x) && s.num[x] < s.num[v]
    ensures forall x: nat | Open(s, x) && s.num[x] < s.num[v] :: x in s.stack[..k]
  {
    assert Open(s, v);
    forall i | 0 <= i < |s.stack| ensures Open(s, s.stack[i]) && (s.num[s.stack[i]] < s.num[v] <==> i < k) {
      assert Later(s, i, k) && Later(s, k, i) && Open(s, s.stack[i]);
    }
    forall x: nat | x < g.n ensures x in s.stack[k..] <==> Top(s, s.num[v], x) {
      if x in s.stack[k..] {
        var i: nat :| i < |s.stack| - k && s.stack[k..][i] == x;
        assert s.stack[k + i] == x;
      }
      if Top(s, s.num[v], x) {
        var i: nat :| i < |s.stack| && s.stack[i] == x;
        assert s.stack[k..][i - k] == x;
      }
    }
    forall x: nat | x in s.stack[..k] ensures Open(s, x) && s.num[x] < s.num[v] {
      var i: nat :| i < k && s.stack[..k][i] == x;
      assert s.stack[i] == x;
    }
    forall x: nat | Open(s, x) && s.num[x] < s.num[v] ensures x in s.stack[..k] {
      var i: nat :| i < |s.stack| && s.stack[i] == x;
      assert s.stack[..k][i] == x;
    }
  }

  lemma PopShape(g: Digraph, s: State, t: State, k: nat, v: nat)
    requires Shape(g, s) && StackOrder(s) && k < |s.stack| && s.stack[k] == v && t == Popped(s, k)
    ensures Shape(g, t) && StackOrder(t)
  {
    PoppedTop(g, s, k, v);
    SubsetSize(DoneSet(s), Below(g.n));
    assert Open(s, v);
    assert SeenSet(t) == SeenSet(s);
    SubsetSize(DoneSet(s) + {v}, DoneSet(t));
    forall i, j ensures Later(t, i, j) { assert Later(s, i, j); }
  }

  /** Vertices of the new component are mutually reachable, and no others join them. */
  lemma PopComponents(g: Digraph, s0: State, s: State, t: State, low: nat, gray: set<nat>, v: nat, tried: set<Edge>, a: nat, b: nat)
    requires Visiting(g, s0, s, low, gray, v, tried) && low == s.num[v] == s0.index
    requires forall e | e in g.es && e.0 == v :: e in tried
    requires PopRel(s, t, s0.index)
    ensures SameComponent(g, t, a, b)
  {
    if Done(t, a) && Done(t, b) {
      if Top(s, s0.index, a) && Top(s, s0.index, b) {
        TopMutual(g, s0, s, low, gray, v, tried, a);
        TopMutual(g, s0, s, low, gray, v, tried, b);
        ReachTrans(g.es, a, v, b);
        ReachTrans(g.es, b, v, a);
      } else if Top(s, s0.index, a) {
        if Reach(g.es, b, a) { DoneClosed(g, s, gray + {v}, b, a); }
      } else if Top(s, s0.index, b) {
        if Reach(g.es, a, b) { DoneClosed(g, s, gray + {v}, a, b); }
      } else {
        assert SameComponent(g, s, a, b);
      }
    }
  }

  lemma PopMembers(g: Digraph, s: State, t: State, base: nat, v: nat)
    requires PopRel(s, t, base) && Top(s, base, v) && s.comp < INF
    requires forall k: nat {:trigger HasMember(s, k)} | k < s.comp :: HasMember(s, k)
    ensures forall k: nat {:trigger HasMember(t, k)} | k < t.comp :: HasMember(t, k)
  {
    forall k: nat | k < t.comp ensures HasMember(t, k) {
      if k == s.comp {
        assert Done(t, v) && t.comps[v] == k;
      } else {
        assert HasMember(s, k);
        var x: nat :| Done(s, x) && s.comps[x] == k;
        assert Done(t, x) && t.comps[x] == k;
      }
    }
  }

  lemma PopEdges(g: Digraph, s0: State, s: State, t: State, low: nat, gray: set<nat>, v: nat, tried: set<Edge>, e: Edge)
    requires Visiting(g, s0, s, low, gray, v, tried) && low == s.num[v] == s0.index
    requires forall e | e in g.es && e.0 == v :: e in tried
    requires PopRel(s, t, s0.index) && s.comp < INF && e in g.es
    ensures EdgeOk(t, gray, e)
  {
    assert EdgeOk(s, gray + {v}, e);
    if Top(s, s0.index, e.0) || Done(s, e.0) { TopClosed(g, s0, s, low, gray, v, tried, e); }
  }

  lemma PopAnchors(g: Digraph, s0: State, s: State, t: State, low: nat, gray: set<nat>, v: nat, tried: set<Edge>, x: nat)
    requires Visiting(g, s0, s, low, gray, v, tried) && low == s.num[v] == s0.index
    requires PopRel(s, t, s0.index) && s.comp < INF && Open(t, x)
    ensures Anchored(g, t, gray, x)
  {
    assert Open(s, x) && !Top(s, s0.index, x);
    assert Anchored(g, s, gray + {v}, x);
    var y: nat :| AnchoredAt(g, s, gray + {v}, x, y);
    assert AnchoredAt(g, t, gray, x, y);
  }

  lemma PopInv(g: Digraph, s0: State, s: State, t: State, low: nat, gray: set<nat>, v: nat, tried: set<Edge>)
    requires Visiting(g, s0, s, low, gray, v, tried) && low == s.num[v] == s0.index
    requires forall e | e in g.es && e.0 == v :: e in tried
    requires |s0.stack| < |s.stack| && s.stack[|s0.stack|] == v && t == Popped(s, |s0.stack|)
    ensures Inv(g, t, gray)
  {
    PopShape(g, s, t, |s0.stack|, v);
    PoppedTop(g, s, |s0.stack|, v);
    SubsetSize(DoneSet(s), Below(g.n));
    assert Open(s, v);
    PopMembers(g, s, t, s0.index, v);
    forall y | y in gray ensures Open(t, y) { assert Open(s, y); }
    forall e | e in g.es ensures EdgeOk(t, gray, e) { PopEdges(g, s0, s, t, low, gray, v, tried, e); }
    forall x | Open(t, x) ensures Anchored(g, t, gray, x) { PopAnchors(g, s0, s, t, low, gray, v, tried, x); }
    forall y, x | y in gray && Open(t, x) ensures Ahead(g, t, y, x) { assert Ahead(g, s, y, x); }
    forall a: nat, b: nat ensures SameComponent(g, t, a, b) { PopComponents(g, s0, s, t, low, gray, v, tried, a, b); }
  }

  /** A vertex whose low link is its own number is the root of a component, which is complete. */
  lemma LeaveComponent(g: Digraph, s0: State, s: State, t: State, low: nat, gray: set<nat>, v: nat, tried: set<Edge>)
    requires Inv(g, s0, gray) && Visiting(g, s0, s, low, gray, v, tried) && low == s.num[v]
    requires forall e | e in g.es && e.0 == v :: e in tried
    requires |s0.stack| <= |s.stack| && t == Popped(s, |s0.stack|)
    ensures Visited(g, s0, t, low, gray, v)
  {
    EnterShape(g, s0, v);
    EnterGrows(g, s0, v);
    GrewTrans(s0, Entered(s0, v), s);
    var k := |s0.stack|;
    assert Seen(Entered(s0, v), v) && s.num[v] == s0.index;
    assert s.stack[..k + 1][k] == v;
    PopInv(g, s0, s, t, low, gray, v, tried);
    PoppedTop(g, s, k, v);
    PopGrows(s0, s, t);
    assert Done(t, v) by { SubsetSize(DoneSet(s), Below(g.n)); }
    forall e | e in g.es ensures CrossOk(t, s0.index, low, e) { }
  }

  lemma PopGrows(s0: State, s: State, t: State)
    requires Grew(s0, s) && |s0.num| == |s0.comps| && PopRel(s, t, s0.index)
    requires t.stack == s.stack[..|s0.stack|] && forall x | 0 <= x < |s0.num| :: Seen(s0, x) ==> s0.num[x] < s0.index
    ensures Grew(s0, t)
  {
    forall x | 0 <= x < |s0.num| ensures (Done(s0, x) ==> Done(t, x) && t.comps[x] == s0.comps[x]) && (Open(s0, x) ==> Open(t, x)) {
      if Seen(s0, x) { assert Seen(s, x) && !Top(s, s0.index, x); }
    }
  }

  // ---------- numbering ----------

  /** The vertices of a list of edges as they come. */
  function Ends<V>(edges: seq<(V, V)>): (xs: seq<V>) {
    if edges == [] then [] else
      var n := |edges| - 1;
      Ends(edges[..n]) + [edges[n].0] + [edges[n].1]
  }

  ghost predicate IsEnd<V>(edges: seq<(V, V)>, v: V) {
    exists k :: 0 <= k < |edges| && (edges[k].0 == v || edges[k].1 == v)
  }

  lemma {:induction false} EndsHave<V>(edges: seq<(V, V)>, v: V)
    ensures v in Ends(edges) ==> IsEnd(edges, v)
  {
    if edges != [] {
      var n := |edges| - 1;
      EndsHave(edges[..n], v);
      if v in Ends(edges[..n]) {
        var k :| 0 <= k < n && (edges[..n][k].0 == v || edges[..n][k].1 == v);
        assert edges[k] == edges[..n][k];
      }
    }
  }

  lemma EndsNext<V>(edges: seq<(V, V)>, i: nat)
    requires i < |edges|
    ensures Ends(edges[..i + 1]) == Ends(edges[..i]) + [edges[i].0] + [edges[i].1]
  {
    assert edges[..i + 1][..i] == edges[..i];
  }

  /** The first `n` edges of the input and of the numbered list correspond. */
  ghost predicate Numbered<V>(edges: seq<(V, V)>, m: map<V, nat>, raw: seq<Edge>, n: nat) {
    && n == |raw| <= |edges|
    && forall k | 0 <= k < n :: edges[k].0 in m && edges[k].1 in m && raw[k] == (m[edges[k].0], m[edges[k].1])
  }

  lemma NumberedNext<V>(edges: seq<(V, V)>, m: map<V, nat>, m': map<V, nat>, raw: seq<Edge>, n: nat)
    requires Numbered(edges, m, raw, n) && n < |edges|
    requires forall v | v in m :: v in m' && m'[v] == m[v]
    requires edges[n].0 in m' && edges[n].1 in m'
    ensures Numbered(edges, m', raw + [(m'[edges[n].0], m'[edges[n].1])], n + 1)
  {
  }

  lemma NumberedInGraph<V(!new)>(edges: seq<(V, V)>, m: map<V, nat>, raw: seq<Edge>, n: nat)
    requires Numbering(m, 0, n) && Numbered(edges, m, raw, |edges|)
    ensures InGraph(Digraph(n, EdgesOf(raw)))
  {
    forall x | x in EdgesOf(raw) ensures x.0 < n && x.1 < n {
      var k: nat :| k < |raw| && raw[k] == x;
    }
  }

  /** Reachability along the input edges themselves. */
  ghost predicate WalkIn<V(!new)>(edges: seq<(V, V)>, a: V, b: V, n: nat)
    decreases n
  {
    if n == 0 then a == b else exists c: V :: (a, c) in edges && WalkIn(edges, c, b, n - 1)
  }

  ghost predicate Reaches<V(!new)>(edges: seq<(V, V)>, a: V, b: V) {
    exists n: nat :: WalkIn(edges, a, b, n)
  }

  lemma {:induction false} WalkRenamed<V(!new)>(edges: seq<(V, V)>, m: map<V, nat>, raw: seq<Edge>, a: V, b: V, n: nat)
    requires Numbered(edges, m, raw, |edges|) && a in m && b in m
    requires WalkIn(edges, a, b, n)
    ensures ReachIn(EdgesOf(raw), m[a], m[b], n)
    decreases n
  {
    if n != 0 {
      var c: V :| (a, c) in edges && WalkIn(edges, c, b, n - 1);
      var k: nat :| k < |edges| && edges[k] == (a, c);
      WalkRenamed(edges, m, raw, c, b, n - 1);
      assert raw[k] == (m[a], m[c]);
    }
  }

  lemma {:induction false} WalkOriginal<V(!new)>(edges: seq<(V, V)>, m: map<V, nat>, raw: seq<Edge>, size: nat, a: V, b: V, n: nat)
    requires Numbering(m, 0, size) && Numbered(edges, m, raw, |edges|) && a in m && b in m
    requires ReachIn(EdgesOf(raw), m[a], m[b], n)
    ensures WalkIn(edges, a, b, n)
    decreases n
  {
    if n == 0 {
      assert NoClash(m, a, b);
    } else {
      var c: nat :| (m[a], c) in EdgesOf(raw) && ReachIn(EdgesOf(raw), c, m[b], n - 1);
      var k: nat :| k < |raw| && raw[k] == (m[a], c);
      assert NoClash(m, a, edges[k].0);
      WalkOriginal(edges, m, raw, size, edges[k].1, b, n - 1);
      assert (a, edges[k].1) in edges;
    }
  }

  lemma ReachesRenamed<V(!new)>(edges: seq<(V, V)>, m: map<V, nat>, raw: seq<Edge>, size: nat, a: V, b: V)
    requires Numbering(m, 0, size) && Numbered(edges, m, raw, |edges|) && a in m && b in m
    ensures Reaches(edges, a, b) <==> Reach(EdgesOf(raw), m[a], m[b])
  {
    if Reaches(edges, a, b) {
      var n: nat :| WalkIn(edges, a, b, n);
      WalkRenamed(edges, m, raw, a, b, n);
    }
    if Reach(EdgesOf(raw), m[a], m[b]) {
      var n: nat :| ReachIn(EdgesOf(raw), m[a], m[b], n);
      WalkOriginal(edges, m, raw, size, a, b, n);
    }
  }

  // ---------- the algorithm ----------

  class TarjanComponents<V(==, !new)> {
    var e: seq<Edge>
    var vmap: map<V, nat>
    var indexi: seq<nat>
    var comps: seq<nat>
    var lowlink: seq<nat>
    var stack: seq<nat>
    var index: nat
    var comp: nat

    ghost function S(): State
      reads this
    {
      State(indexi, comps, stack, index, comp)
    }

    ghost function G(): Digraph
      reads this
    {
      Digraph(|indexi|, EdgesOf(e))
    }

    /** Edges sorted, arrays of one size. */
    ghost predicate Valid()
      reads this
    {
      Sorted(e) && |lowlink| == |indexi|
    }

    /** Numbers the vertices in order of first appearance and sorts the edges. */
    constructor (edges: seq<(V, V)>)
      requires |Appearance(Ends(edges))| < INF
      ensures Valid() && Inv(G(), S(), {}) && index == 0
      ensures |indexi| == |Appearance(Ends(edges))| && Numbers(vmap, Ends(edges), 0) && Numbering(vmap, 0, |indexi|)
      ensures exists raw :: Numbered(edges, vmap, raw, |edges|) && EdgesOf(e) == EdgesOf(raw)
    {
      hide Appearance, Numbers, Numbering, Inv;
      var m, tot, raw := NumberAll<V>(edges);
      vmap, e := m, Sort(raw);
      indexi, lowlink, comps := seq(tot, _ => INF), seq(tot, _ => 0), seq(tot, _ => 0);
      stack, index, comp := [], 0, 0;
      new;
      SortSorts(raw);
      NumbersOnce(vmap, Ends(edges), 0);
      NumberedInGraph(edges, vmap, raw, tot);
      SearchStarts(G(), S());
    }

    /** The loop of the constructor. */
    static method NumberAll<K(==, !new)>(edges: seq<(K, K)>) returns (m: map<K, nat>, tot: nat, raw: seq<Edge>)
      ensures Numbers(m, Ends(edges), 0) && tot == |Appearance(Ends(edges))|
      ensures Numbered(edges, m, raw, |edges|)
    {
      hide Appearance, Numbers, Ends;
      m, tot, raw := map[], 0, [];
      NoEnds(edges);
      for i := 0 to |edges|
        invariant Numbers(m, Ends(edges[..i]), 0) && tot == |Appearance(Ends(edges[..i]))|
        invariant Numbered(edges, m, raw, i)
      {
        ghost var before, xs := m, Ends(edges[..i]);
        EndsNext(edges, i);
        NumbersNext(m, xs, 0, edges[i].0);
        if edges[i].0 !in m {
          m, tot := m[edges[i].0 := tot], tot + 1;
        }
        NumbersNext(m, xs + [edges[i].0], 0, edges[i].1);
        if edges[i].1 !in m {
          m, tot := m[edges[i].1 := tot], tot + 1;
        }
        NumberedNext(edges, before, m, raw, i);
        raw := raw + [(m[edges[i].0], m[edges[i].1])];
      }
      assert edges[..|edges|] == edges;
    }

    /** The first edge of `v` in the sorted list. */
    method FirstEdge(v: nat) returns (i: nat)
      ensures i <= |e|
      ensures forall j | 0 <= j < i :: e[j].0 < v
      ensures i < |e| ==> e[i].0 >= v
    {
      i := LowerBound(e, (v, 0));
    }

    /** Numbers `v` and stacks it. */
    method Enter(v: nat)
      requires v < |indexi| == |comps| == |lowlink|
      modifies this`indexi, this`comps, this`lowlink, this`stack, this`index
      ensures S() == Entered(old(S()), v) && lowlink == old(lowlink)[v := old(index)]
    {
      indexi := indexi[v := index];
      lowlink := lowlink[v := index];
      index := index + 1;
      stack := stack + [v];
      comps := comps[v := INF];
    }

    /** Visits `v` and everything unseen behind it; `gray` are the vertices being visited. */
    method Tarjan(v: nat, ghost gray: set<nat>)
      requires Valid() && Inv(G(), S(), gray) && White(S(), v)
      requires forall y | y in gray :: Reach(G().es, y, v)
      modifies this`indexi, this`comps, this`lowlink, this`stack, this`index, this`comp
      decreases Unseen(S()), 1
      ensures Valid() && G() == old(G())
      ensures Visited(G(), old(S()), S(), lowlink[v], gray, v)
      ensures LowKept(old(S()), old(lowlink), lowlink)
    {
      hide Visiting, Visited, Inv;
      ghost var g, s0, l0 := G(), S(), lowlink;
      VisitStart(g, s0, gray, v);
      Enter(v);
      var it := FirstEdge(v);
      ghost var lo, tried: set<Edge> := it, {};
      while it < |e| && e[it].0 == v
        invariant lo <= it <= |e| && Valid() && G() == g && e == old(e)
        invariant tried == EdgesOf(e[lo..it]) && (lo < it ==> e[it - 1].0 == v)
        invariant Visiting(g, s0, S(), lowlink[v], gray, v, tried)
        invariant LowKept(s0, l0, lowlink)
      {
        FollowEdge(v, it, g, s0, l0, gray, tried);
        tried := tried + {e[it]};
        assert e[lo..it + 1] == e[lo..it] + [e[it]];
        it := it + 1;
      }
      AllTried(e, v, lo, it);
      VisitLow(g, s0, S(), lowlink[v], gray, v, tried);
      if indexi[v] == lowlink[v] {
        ghost var s := S();
        VisitStack(g, s0, s, lowlink[v], gray, v, tried);
        PopComponent(v, |s0.stack|);
        LeaveComponent(g, s0, s, S(), lowlink[v], gray, v, tried);
      } else {
        LeaveOpen(g, s0, S(), lowlink[v], gray, v, tried);
      }
    }

    /** The body of the edge loop of a visit: edge `it` leads from `v` to an unseen, open or finished vertex. */
    method FollowEdge(v: nat, it: nat, ghost g: Digraph, ghost s0: State, ghost l0: seq<nat>, ghost gray: set<nat>, ghost tried: set<Edge>)
      requires Valid() && G() == g && it < |e| && e[it].0 == v && v < |lowlink|
      requires Inv(g, s0, gray) && Visiting(g, s0, S(), lowlink[v], gray, v, tried) && LowKept(s0, l0, lowlink)
      modifies this`indexi, this`comps, this`lowlink, this`stack, this`index, this`comp
      decreases Unseen(s0), 0
      ensures Valid() && G() == g && e == old(e)
      ensures Visiting(g, s0, S(), lowlink[v], gray, v, tried + {e[it]}) && LowKept(s0, l0, lowlink)
    {
      hide Visiting, Visited, Inv, LowKept, Reach, EdgesOf, Unseen;
      ghost var s, l := S(), lowlink;
      EdgeAt(e, it);
      VisitRange(g, s0, s, lowlink[v], gray, v, tried, e[it]);
      var w := e[it].1;
      if indexi[w] == INF {
        VisitShrinks(g, s0, s, lowlink[v], gray, v, tried);
        ActiveReach(g, s0, s, lowlink[v], gray, v, tried, w);
        Tarjan(w, gray + {v});
        LowKeptTrans(g, s0, s, gray, v, tried, l0, l, lowlink);
        EdgeToWhite(g, s0, s, S(), lowlink[v], lowlink[w], gray, v, tried, e[it]);
        LowSet(g, s0, s, gray, v, tried, l0, lowlink, l[v], Min(lowlink[v], lowlink[w]));
        lowlink := lowlink[v := Min(lowlink[v], lowlink[w])];
      } else if comps[w] == INF {
        EdgeToOpen(g, s0, s, lowlink[v], gray, v, tried, e[it]);
        LowSet(g, s0, s, gray, v, tried, l0, lowlink, l[v], Min(lowlink[v], indexi[w]));
        lowlink := lowlink[v := Min(lowlink[v], indexi[w])];
      } else {
        EdgeToDone(g, s0, s, lowlink[v], gray, v, tried, e[it]);
      }
    }

    /** The loop at the end of a visit: takes the stack down to and including `v`, which is at height `k`. */
    method PopComponent(v: nat, ghost k: nat)
      requires k < |stack| && stack[k] == v
      requires forall i | k < i < |stack| :: stack[i] != v
      requires forall i | k <= i < |stack| :: stack[i] < |comps|
      modifies this`comps, this`stack, this`comp
      ensures S() == Popped(old(S()), k)
    {
      ghost var st, c0 := stack, comps;
      var vp := stack[|stack| - 1];
      stack := stack[..|stack| - 1];
      comps := comps[vp := comp];
      while vp != v
        invariant k <= |stack| < |st| && stack == st[..|stack|] && vp == st[|stack|]
        invariant comp == old(comp) && comps == Labelled(c0, st[|stack|..], comp)
        decreases |stack|
      {
        vp := stack[|stack| - 1];
        stack := stack[..|stack| - 1];
        comps := comps[vp := comp];
      }
      assert comps == Labelled(c0, st[k..], comp) && stack == st[..k];
      comp := comp + 1;
    }

    /** Visits every vertex not seen yet, and reports the component of each vertex by name. */
    method Execute() returns (count: nat, res: map<V, nat>)
      requires Valid() && Inv(G(), S(), {}) && Numbering(vmap, 0, |indexi|)
      modifies this`indexi, this`comps, this`lowlink, this`stack, this`index, this`comp
      ensures Components(old(G()), comps, count) && |comps| == |old(indexi)| && vmap == old(vmap)
      ensures res.Keys == vmap.Keys && forall x | x in res :: vmap[x] < |comps| && res[x] == comps[vmap[x]]
    {
      ghost var g := G();
      for i := 0 to |indexi|
        invariant Valid() && G() == g && Inv(g, S(), {})
        invariant forall v | 0 <= v < i :: Seen(S(), v)
      {
        ghost var s := S();
        if indexi[i] == INF {
          Tarjan(i, {});
          SeenStays(g, s, S(), lowlink[i], i);
        }
      }
      SearchComplete(g, S());
      res := map x | x in vmap :: comps[vmap[x]];
      count := comp;
    }
  }

  lemma NoEnds<V(!new)>(edges: seq<(V, V)>)
    ensures Numbers(map[], Ends(edges[..0]), 0) && Appearance(Ends(edges[..0])) == []
  {
  }

  /** With nothing being visited, no vertex is open. */
  lemma NothingOpen(g: Digraph, s: State, x: nat)
    requires Inv(g, s, {})
    ensures !Open(s, x)
  {
    assert !Anchored(g, s, {}, x);
  }

  /** The component numbers of a finished search. */
  ghost predicate Components(g: Digraph, comps: seq<nat>, count: nat) {
    && |comps| == g.n && (forall e | e in g.es :: e.0 < g.n && e.1 < g.n)
    && (forall a | 0 <= a < g.n :: comps[a] < count)
    && (forall k: nat | k < count :: k in comps)
    && (forall a: nat, b: nat {:trigger Mutual(g.es, a, b)} | a < g.n && b < g.n :: comps[a] == comps[b] <==> Mutual(g.es, a, b))
    && (forall e | e in g.es :: comps[e.1] <= comps[e.0])
  }

  lemma SearchComplete(g: Digraph, s: State)
    requires Inv(g, s, {}) && forall v | 0 <= v < g.n :: Seen(s, v)
    ensures Components(g, s.comps, s.comp)
  {
    forall v: nat | v < g.n ensures Done(s, v) {
      assert Seen(s, v);
      NothingOpen(g, s, v);
    }
    forall k: nat | k < s.comp ensures k in s.comps {
      assert HasMember(s, k);
      var v: nat :| Done(s, v) && s.comps[v] == k;
    }
    forall a: nat, b: nat | a < g.n && b < g.n ensures s.comps[a] == s.comps[b] <==> Mutual(g.es, a, b) {
      assert SameComponent(g, s, a, b);
    }
    forall e | e in g.es ensures s.comps[e.1] <= s.comps[e.0] { assert EdgeOk(s, {}, e); }
  }

  lemma SearchStarts(g: Digraph, s: State)
    requires InGraph(g) && |s.num| == |s.comps| == g.n < INF && s.stack == [] && s.index == s.comp == 0
    requires forall v | 0 <= v < g.n :: s.num[v] == INF
    ensures Inv(g, s, {})
  {
    assert SeenSet(s) == {};
  }

  lemma AllTried(es: seq<Edge>, v: nat, lo: nat, it: nat)
    requires Sorted(es) && lo <= it <= |es|
    requires forall j | 0 <= j < lo :: es[j].0 < v
    requires it < |es| ==> es[it].0 != v && (if lo < it then es[it - 1].0 == v else es[it].0 >= v)
    ensures forall f | f in EdgesOf(es) && f.0 == v :: f in EdgesOf(es[lo..it])
  {
    ScanComplete(es, v, lo, it);
    forall f | f in EdgesOf(es) && f.0 == v ensures f in EdgesOf(es[lo..it]) {
      var j :| 0 <= j < |es| && es[j] == f;
      assert es[lo..it][j - lo] == f;
    }
  }

  lemma LowKeptTrans(g: Digraph, s0: State, s: State, gray: set<nat>, v: nat, tried: set<Edge>, l0: seq<nat>, l1: seq<nat>, l2: seq<nat>)
    requires |l1| == |s.num| && v < |l1| && Visiting(g, s0, s, l1[v], gray, v, tried)
    requires Inv(g, s0, gray) && LowKept(s0, l0, l1) && LowKept(s, l1, l2)
    ensures LowKept(s0, l0, l2) && l2[v] == l1[v] && Seen(s, v)
  {
    EnterGrows(g, s0, v);
    GrewTrans(s0, Entered(s0, v), s);
    forall x | 0 <= x < |s0.num| && Seen(s0, x) ensures l2[x] == l0[x] { assert s.num[x] == s0.num[x]; }
    assert Open(s, v);
  }

  /** The low link of the vertex being visited may change. */
  lemma LowSet(g: Digraph, s0: State, s: State, gray: set<nat>, v: nat, tried: set<Edge>, l0: seq<nat>, l1: seq<nat>, low: nat, x: nat)
    requires Visiting(g, s0, s, low, gray, v, tried) && v < |l1| && LowKept(s0, l0, l1)
    ensures LowKept(s0, l0, l1[v := x])
  {
  }

  lemma EdgeAt(es: seq<Edge>, it: nat)
    requires it < |es|
    ensures es[it] in EdgesOf(es)
  {
  }

  lemma VisitStack(g: Digraph, s0: State, s: State, low: nat, gray: set<nat>, v: nat, tried: set<Edge>)
    requires Visiting(g, s0, s, low, gray, v, tried)
    ensures |s0.stack| < |s.stack| && s.stack[|s0.stack|] == v
    ensures forall i | |s0.stack| < i < |s.stack| :: s.stack[i] != v
    ensures forall i | 0 <= i < |s.stack| :: s.stack[i] < |s.comps|
  {
    var k := |s0.stack|;
    assert s.stack[..k + 1][k] == v;
    forall i | 0 <= i < |s.stack| ensures s.stack[i] < |s.comps| && (k < i ==> s.stack[i] != v) {
      assert Open(s, s.stack[i]) && Open(s, s.stack[k]) && Later(s, k, i);
    }
  }

  lemma SeenStays(g: Digraph, s: State, t: State, low: nat, i: nat)
    requires Visited(g, s, t, low, {}, i) && forall v | 0 <= v < i :: Seen(s, v)
    ensures Inv(g, t, {}) && forall v | 0 <= v < i + 1 :: Seen(t, v)
  {
    forall v | 0 <= v < i ensures Seen(t, v) { assert Seen(s, v); }
  }

  /** `tarjan_strongly_cc`: every vertex gets a number, two of them the same exactly when each reaches the other, the count
      is how many numbers there are, and edges never lead to a higher number. */
  method TarjanStronglyConnected<V(==, !new)>(edges: seq<(V, V)>) returns (count: nat, res: map<V, nat>)
    requires |Appearance(Ends(edges))| < INF
    ensures forall k | 0 <= k < |edges| :: edges[k].0 in res && edges[k].1 in res
    ensures forall x | x in res :: IsEnd(edges, x)
    ensures forall a, b {:trigger res[a], res[b]} | a in res && b in res :: res[a] == res[b] <==> Reaches(edges, a, b) && Reaches(edges, b, a)
    ensures forall k: nat :: k < count <==> k in res.Values
    ensures forall k | 0 <= k < |edges| :: res[edges[k].1] <= res[edges[k].0]
  {
    hide Appearance, Ends, IsEnd, Numbers, Inv;
    var t := new TarjanComponents(edges);
    ghost var raw :| Numbered(edges, t.vmap, raw, |edges|) && EdgesOf(t.e) == EdgesOf(raw);
    ghost var m, g := t.vmap, t.G();
    NamedVertices(edges, m);
    count, res := t.Execute();
    forall a, b | a in res && b in res ensures res[a] == res[b] <==> Reaches(edges, a, b) && Reaches(edges, b, a) {
      ReachesRenamed(edges, m, raw, g.n, a, b);
      ReachesRenamed(edges, m, raw, g.n, b, a);
      assert res[a] == res[b] <==> Mutual(g.es, m[a], m[b]);
    }
    forall k: nat ensures k < count <==> k in res.Values {
      if k < count {
        assert k in t.comps;
        var v: nat :| v < |t.comps| && t.comps[v] == k;
        assert Named(m, v);
        var x :| x in m && m[x] == v;
        assert res[x] == k;
      }
    }
    forall k | 0 <= k < |edges| ensures res[edges[k].1] <= res[edges[k].0] {
      assert raw[k] in EdgesOf(raw);
    }
  }

  lemma NamedVertices<V(!new)>(edges: seq<(V, V)>, m: map<V, nat>)
    requires Numbers(m, Ends(edges), 0)
    ensures forall x | x in m :: IsEnd(edges, x)
  {
    hide Ends, Appearance, IsEnd;
    forall x | x in m ensures IsEnd(edges, x) { EndsHave(edges, x); }
  }
}
