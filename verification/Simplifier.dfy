/** Mesh simplification: edges are taken from a priority queue and collapsed when the topology and the geometry allow
    it, until nothing is left to collapse or the target is met. Errors and geometric checks are arbitrary. */
module Simplifier {
  import opened MeshTopology
  import opened Options
  import opened Paths
  import opened TriMesh

  /** The key of an undirected edge. */
  function Canonical(x: nat, y: nat): (e: Edge) {
    if x < y then (x, y) else (y, x)
  }

  /** Queue keys are distinct by being map keys; here they are also canonical and name live edges. */
  ghost predicate KeysLive(heap: map<Edge, real>, t: Across) {
    forall e | e in heap :: e.0 < e.1 && e in t
  }

  /** Both ends are off the border. */
  ghost predicate Inside(t: Across, e: Edge) {
    ClosedAt(t, e.0) && ClosedAt(t, e.1)
  }

  /** The queue holds no edge that touches the border. */
  ghost predicate KeysInside(heap: map<Edge, real>, t: Across) {
    forall e | e in heap :: Inside(t, e)
  }

  ghost predicate KeyAt(e: Edge, v: nat) {
    e.0 == v || e.1 == v
  }

  // ---------- the link condition ----------

  /** The ends of the edge have no common neighbours but the two vertices opposite it, which are two. */
  ghost predicate LinkCondition(t: Across, a: nat, b: nat) {
    && (a, b) in t && (b, a) in t && t[(a, b)] != t[(b, a)]
    && forall x: nat :: CommonOpposite(t, a, b, x)
  }

  ghost predicate CommonOpposite(t: Across, a: nat, b: nat, x: nat)
    requires (a, b) in t && (b, a) in t
  {
    (a, x) in t && (b, x) in t ==> x == t[(a, b)] || x == t[(b, a)]
  }

  /** What the walk of `check_topology` finds on the ring of `a` from `b`. */
  ghost predicate LinkFree(t: Across, b: nat, ring: seq<nat>) {
    forall j | 2 <= j < |ring| - 1 :: (b, ring[j]) !in t
  }

  /** The first and last ring vertices lie across the edge from either side. */
  lemma RingEnds(t: Across, v: nat, ring: seq<nat>)
    requires Triangles(t) && Ring(t, v, ring)
    ensures |ring| >= 2 && Tri(t, v, ring[0], ring[1]) && Tri(t, ring[0], v, ring[|ring| - 1])
    ensures ring[1] == ring[|ring| - 1] <==> |ring| == 2
  {
    assert RingStep(t, v, ring, 0) && RingStep(t, v, ring, |ring| - 1);
    assert SideOk(t, v, ring[0], After(ring, 0)) && SideOk(t, v, ring[|ring| - 1], ring[0]);
  }

  /** The walk decides the link condition. */
  lemma WalkIsLinkCondition(t: Across, a: nat, b: nat, ring: seq<nat>)
    requires Triangles(t) && Ring(t, a, ring) && ring[0] == b
    ensures LinkCondition(t, a, b) <==> |ring| >= 3 && LinkFree(t, b, ring)
    ensures LinkCondition(t, a, b) && ClosedAt(t, a) && ClosedAt(t, b) ==> Collapsible(t, a, b, ring)
  {
    RingEnds(t, a, ring);
    if |ring| >= 3 && LinkFree(t, b, ring) {
      forall x: nat ensures CommonOpposite(t, a, b, x) {
        assert Around(t, a, ring, x) && SideOk(t, b, x, t[(a, b)]);
        if (a, x) in t && (b, x) in t {
          assert SideOk(t, b, x, t[(b, x)]);
          var j: nat :| j < |ring| && ring[j] == x;
        }
      }
    }
    forall j | 2 <= j < |ring| - 1 && LinkCondition(t, a, b) ensures (b, ring[j]) !in t {
      assert RingStep(t, a, ring, j) && CommonOpposite(t, a, b, ring[j]);
    }
  }

  // ---------- queue keys ----------

  /** The queue without the keys at `v`. */
  ghost function Without(heap: map<Edge, real>, v: nat): (r: map<Edge, real>) {
    map e | e in heap && !KeyAt(e, v) :: heap[e]
  }

  /** The queue without the keys joining `v` to ring positions below `i`. */
  ghost predicate ErasedTo(heap0: map<Edge, real>, heap: map<Edge, real>, v: nat, ring: seq<nat>, i: int) {
    && heap.Keys <= heap0.Keys
    && (forall e | e in heap :: heap[e] == heap0[e])
    && (forall e | e in heap0 && !KeyAt(e, v) :: e in heap)
    && forall j | 0 <= j < i && j < |ring| :: Canonical(v, ring[j]) !in heap
  }

  lemma ErasedAll(heap0: map<Edge, real>, heap: map<Edge, real>, t: Across, v: nat, ring: seq<nat>)
    requires KeysLive(heap0, t) && ClosedAt(t, v) && Ring(t, v, ring) && ErasedTo(heap0, heap, v, ring, |ring|)
    ensures heap == Without(heap0, v)
  {
    forall e | e in heap ensures !KeyAt(e, v) {
      assert SharedSpoke(t, v, e.0) && SharedSpoke(t, v, e.1);
      ErasedKey(heap0, heap, t, v, ring, e.0);
      ErasedKey(heap0, heap, t, v, ring, e.1);
    }
  }

  lemma ErasedKey(heap0: map<Edge, real>, heap: map<Edge, real>, t: Across, v: nat, ring: seq<nat>, x: nat)
    requires Ring(t, v, ring) && ErasedTo(heap0, heap, v, ring, |ring|)
    ensures (v, x) in t ==> Canonical(v, x) !in heap
  {
    assert Around(t, v, ring, x);
    if (v, x) in t {
      var j: nat :| j < |ring| && ring[j] == x;
    }
  }

  /** Keys away from both ends survive a collapse. */
  lemma KeysSurvive(heap: map<Edge, real>, t: Across, m: Across, a: nat, b: nat)
    requires KeysLive(heap, t) && Triangles(t) && IsCollapse(t, m, a, b) && a != b
    ensures KeysLive(Without(Without(heap, a), b), m)
  {
    forall e | e in Without(Without(heap, a), b) ensures e.0 < e.1 && e in m {
      var w := t[e];
      assert Tri(t, e.0, e.1, w);
      assert SideOk(t, e.0, e.1, w);
      if w == a { Kept(t, m, a, b, a, e.0, e.1); } else { Kept(t, m, a, b, e.0, e.1, w); }
      assert (e.0, e.1) == e;
    }
  }

  /** While the edges round `v` are queued again: other keys as before, and of those joining `v` to ring positions below
      `i` just those off the border, with their errors. */
  ghost predicate QueuedTo(t: Across, heap0: map<Edge, real>, heap: map<Edge, real>, v: nat, ring: seq<nat>, i: int, error: Edge -> real) {
    && heap0.Keys <= heap.Keys && Errors(heap0, heap, error)
    && (forall e | e in heap && e !in heap0 :: KeyBefore(e, v, ring, i) && Inside(t, e))
    && forall j | 0 <= j < i && j < |ring| && Inside(t, Canonical(v, ring[j])) :: Canonical(v, ring[j]) in heap
  }

  /** Keys of before keep their values, and new ones have their errors. */
  ghost predicate Errors(heap0: map<Edge, real>, heap: map<Edge, real>, error: Edge -> real) {
    forall e | e in heap :: heap[e] == if e in heap0 then heap0[e] else error(e)
  }

  ghost predicate KeyBefore(e: Edge, v: nat, ring: seq<nat>, i: int) {
    exists j :: 0 <= j < i && j < |ring| && e == Canonical(v, ring[j])
  }

  lemma QueueStart(t: Across, heap: map<Edge, real>, v: nat, ring: seq<nat>, error: Edge -> real)
    ensures QueuedTo(t, heap, heap, v, ring, 0, error)
  {
  }

  /** The next key is not queued yet: the assertion in `add_to_heap` holds. */
  lemma QueueNext(t: Across, heap0: map<Edge, real>, heap: map<Edge, real>, v: nat, ring: seq<nat>, i: nat, error: Edge -> real)
    requires QueuedTo(t, heap0, heap, v, ring, i, error) && i < |ring| && Distinct(ring) && forall e | e in heap0 :: !KeyAt(e, v)
    ensures var k := Canonical(v, ring[i]);
      k !in heap && QueuedTo(t, heap0, if Inside(t, k) then heap[k := error(k)] else heap, v, ring, i + 1, error)
  {
    hide Inside;
    var k := Canonical(v, ring[i]);
    forall j | 0 <= j < i ensures Canonical(v, ring[j]) != k {
      assert ring[j] != ring[i];
    }
    assert KeyAt(k, v) && !KeyBefore(k, v, ring, i);
    var heap' := if Inside(t, k) then heap[k := error(k)] else heap;
    forall e | e in heap' && e !in heap0 ensures KeyBefore(e, v, ring, i + 1) && Inside(t, e) {
      assert e != k ==> KeyBefore(e, v, ring, i);
      assert e == k ==> e == Canonical(v, ring[i]);
    }
  }

  /** The queue after a collapse into `v`: the keys of before away from both ends with their values of before, and all edges
      at `v` off the border with their errors. */
  ghost predicate Requeued(heap0: map<Edge, real>, heap: map<Edge, real>, t: Across, v: nat, error: Edge -> real) {
    && (forall e: Edge {:trigger e in heap} :: e in heap <==> e in heap0 || (e.0 < e.1 && KeyAt(e, v) && e in t && Inside(t, e)))
    && Errors(heap0, heap, error)
  }

  lemma QueuedAll(heap0: map<Edge, real>, heap: map<Edge, real>, t: Across, v: nat, ring: seq<nat>, error: Edge -> real)
    requires QueuedTo(t, heap0, heap, v, ring, |ring|, error) && KeysLive(heap0, t)
    requires Triangles(t) && ClosedAt(t, v) && Ring(t, v, ring)
    ensures KeysLive(heap, t) && Requeued(heap0, heap, t, v, error)
  {
    hide Inside;
    forall j | 0 <= j < |ring| ensures Canonical(v, ring[j]) in t && ring[j] != v {
      assert RingStep(t, v, ring, j);
      assert SideOk(t, v, ring[j], After(ring, j)) && SharedSpoke(t, v, ring[j]);
    }
    forall e | e in heap ensures e.0 < e.1 && e in t && (e in heap0 || (KeyAt(e, v) && Inside(t, e))) {
      if e !in heap0 {
        var j :| 0 <= j < |ring| && e == Canonical(v, ring[j]);
      }
    }
    forall e: Edge | e.0 < e.1 && KeyAt(e, v) && e in t && Inside(t, e) ensures e in heap {
      var x := if e.0 == v then e.1 else e.0;
      assert SharedSpoke(t, v, x) && Around(t, v, ring, x);
      var j: nat :| j < |ring| && ring[j] == x;
      assert Canonical(v, ring[j]) == e;
    }
  }

  /** The walk refuses the edge, and remembers that. */
  ghost predicate Refused(t: Across, invalid: set<Edge>, e: Edge) {
    e in t && (e.1, e.0) in t && Inside(t, e) && e !in invalid && t[e] != t[(e.1, e.0)] && !LinkCondition(t, e.0, e.1)
  }

  ghost function AfterRefusal(t: Across, invalid: set<Edge>, e: Edge): (r: set<Edge>) {
    if Refused(t, invalid, e) then invalid + {e} else invalid
  }

  lemma NotRefused(t: Across, invalid: set<Edge>, e: Edge)
    requires !Inside(t, e)
    ensures AfterRefusal(t, invalid, e) == invalid
  {
  }

  lemma RefusedByWalk(t: Across, invalid: set<Edge>, e: Edge, ring: seq<nat>, ok: bool)
    requires Triangles(t) && Ring(t, e.0, ring) && ring[0] == e.1 && Inside(t, e)
    requires ok <==> e !in invalid && LinkCondition(t, e.0, e.1)
    ensures invalid + (if !ok && |ring| >= 3 then {e} else {}) == AfterRefusal(t, invalid, e)
  {
    RingEnds(t, e.0, ring);
    assert SideOk(t, e.0, ring[0], ring[1]) && SideOk(t, ring[0], e.0, ring[|ring| - 1]);
    assert (e.0, e.1) == e;
    hide LinkCondition, Ring, Triangles, Inside;
  }

  // ---------- runs ----------

  /** What the loop of `optimize` works on: the triangles, the number of faces, the queue, and the edges refused. */
  datatype State = State(t: Across, faces: nat, heap: map<Edge, real>, refused: set<Edge>)

  /** The edge may go: off the border, not refused before, topology and geometry allow it. */
  ghost predicate Allowed(s: State, top: Edge, fits: bool) {
    Inside(s.t, top) && top !in s.refused && LinkCondition(s.t, top.0, top.1) && fits
  }

  /** One round on the edge `top`: collapsed if that is allowed, and else dropped from the queue. */
  ghost predicate RoundOn(s: State, r: State, top: Edge, fits: bool, error: Edge -> real) {
    && r.refused == AfterRefusal(s.t, s.refused, top)
    && if Allowed(s, top, fits) then
        && IsCollapse(s.t, r.t, top.0, top.1) && r.faces == s.faces - 2
        && Requeued(Without(Without(s.heap, top.0), top.1), r.heap, r.t, top.1, error)
      else r.t == s.t && r.faces == s.faces && r.heap == s.heap - {top}
  }

  /** When the loop stops, an edge of least error being at hand. */
  datatype Goal = Goal(target: nat, maxError: real, minError: real) {
    ghost predicate Met(s: State, top: Edge)
      requires top in s.heap
    {
      (s.faces <= target && s.heap[top] >= minError) || s.heap[top] > maxError
    }
  }

  /** Round number `i` of the loop. */
  ghost predicate RoundOf(run: seq<State>, i: nat, goal: Goal, geometry: (nat, Edge) -> bool, error: (nat, Edge) -> real) {
    exists top :: RoundFrom(run, i, top, goal, geometry, error)
  }

  ghost predicate RoundFrom(run: seq<State>, i: nat, top: Edge, goal: Goal, geometry: (nat, Edge) -> bool, error: (nat, Edge) -> real) {
    && i + 1 < |run| && Least(run[i].heap, top) && !goal.Met(run[i], top)
    && RoundOn(run[i], run[i + 1], top, geometry(i, top), e => error(i, e))
  }

  /** A run of the loop: rounds as long as the goal is not met. */
  ghost predicate Run(run: seq<State>, goal: Goal, geometry: (nat, Edge) -> bool, error: (nat, Edge) -> real) {
    run != [] && forall i: nat {:trigger RoundOf(run, i, goal, geometry, error)} | i + 1 < |run| :: RoundOf(run, i, goal, geometry, error)
  }

  lemma RunOn(run: seq<State>, r: State, top: Edge, goal: Goal, geometry: (nat, Edge) -> bool, error: (nat, Edge) -> real)
    requires Run(run, goal, geometry, error)
    requires var i := |run| - 1;
      && Least(run[i].heap, top) && (exists e :: Least(run[i].heap, e) && !goal.Met(run[i], e))
      && RoundOn(run[i], r, top, geometry(i, top), e => error(i, e))
    ensures Run(run + [r], goal, geometry, error)
  {
    hide RoundOn;
    var more := run + [r];
    forall i: nat | i + 1 < |more| ensures RoundOf(more, i, goal, geometry, error) {
      if i + 1 < |run| {
        assert RoundOf(run, i, goal, geometry, error);
        var t :| RoundFrom(run, i, t, goal, geometry, error);
        assert RoundFrom(more, i, t, goal, geometry, error);
      } else {
        assert RoundFrom(more, i, top, goal, geometry, error);
      }
    }
  }

  class MeshSimplifier {
    const mesh: Mesh
    var heap: map<Edge, real>
    var invalid: set<Edge>

    constructor (mesh: Mesh)
      ensures this.mesh == mesh && heap == map[] && invalid == {}
    {
      this.mesh, heap, invalid := mesh, map[], {};
    }

    /** A surface, closed or not, all its vertices in use named, and a queue of live edges. */
    ghost predicate Ready()
      reads this, mesh
    {
      && mesh.Valid() && Surface(mesh.T()) && AllNamed(mesh.vertices, mesh.edges)
      && KeysLive(heap, mesh.T())
    }

    ghost function Now(): (s: State)
      reads this, mesh
    {
      State(mesh.T(), |mesh.faces|, heap, invalid)
    }

    /** Whether v0 can be collapsed into v1 without the surface meeting itself; `ring` is the ring of v0 from v1. Edges
        refused by the walk are remembered. */
    method CheckTopology(v0: nat, v1: nat, ghost ring: seq<nat>) returns (ok: bool)
      requires Triangles(mesh.T()) && Ring(mesh.T(), v0, ring) && ring[0] == v1
      modifies this`invalid
      ensures ok <==> (v0, v1) !in old(invalid) && LinkCondition(mesh.T(), v0, v1)
      ensures invalid == old(invalid) + (if !ok && |ring| >= 3 then {(v0, v1)} else {})
    {
      ghost var t, last := mesh.T(), |ring| - 1;
      WalkIsLinkCondition(t, v0, v1, ring);
      hide LinkCondition, Collapsible;
      if (v0, v1) in invalid { return false; }
      RingEnds(t, v0, ring);
      var tr := mesh.edges[(v0, v1)].vertex;
      var bl := mesh.edges[(v1, v0)].vertex;
      if bl == tr { return false; }
      assert RingStep(t, v0, ring, 1);
      var v := mesh.edges[(v0, tr)].vertex;
      ghost var i := 2;
      while v != bl
        invariant 2 <= i <= last && v == ring[i]
        invariant forall j | 2 <= j < i :: (v1, ring[j]) !in t
        invariant invalid == old(invalid)
        decreases last - i
      {
        if (v1, v) in mesh.edges {
          invalid := invalid + {(v0, v1)};
          return false;
        }
        assert RingStep(t, v0, ring, i);
        v := mesh.edges[(v0, v)].vertex;
        i := i + 1;
      }
      return true;
    }

    /** A key of least error. */
    method Top() returns (top: Edge)
      requires heap != map[]
      ensures top in heap && forall e | e in heap :: heap[top] <= heap[e]
    {
      top :| top in heap;
      var rest := heap.Keys - {top};
      while rest != {}
        invariant top in heap && rest <= heap.Keys
        invariant forall e | e in heap && e !in rest :: heap[top] <= heap[e]
        decreases |rest|
      {
        var e: Edge :| e in rest;
        if heap[e] < heap[top] { top := e; }
        rest := rest - {e};
      }
    }

    /** Erases the keys round `v`, starting after neighbour `w`, whose key is gone already. */
    method EraseRound(v: nat, w: nat, ghost ring: seq<nat>)
      requires Triangles(mesh.T()) && ClosedAt(mesh.T(), v) && Ring(mesh.T(), v, ring) && ring[0] == w
      requires KeysLive(heap, mesh.T()) && Canonical(v, w) !in heap
      modifies this`heap
      ensures heap == Without(old(heap), v)
    {
      ghost var t, heap0 := mesh.T(), heap;
      assert RingStep(t, v, ring, 0);
      RingEnds(t, v, ring);
      var u := mesh.edges[(v, w)].vertex;
      ghost var i := 1;
      while u != w
        invariant 1 <= i <= |ring| && u == (if i < |ring| then ring[i] else w)
        invariant ErasedTo(heap0, heap, v, ring, i)
        decreases |ring| - i
      {
        assert RingStep(t, v, ring, i);
        heap := heap - {Canonical(v, u)};
        u := mesh.edges[(v, u)].vertex;
        i := i + 1;
      }
      ErasedAll(heap0, heap, t, v, ring);
    }

    /** Queues an edge that is not queued, unless it touches the border. */
    method AddToHeap(x: nat, y: nat, error: Edge -> real)
      requires mesh.Valid() && AllNamed(mesh.vertices, mesh.edges)
      requires (x, y) in mesh.edges && (x, y) !in heap
      modifies this`heap
      ensures heap == if Inside(mesh.T(), (x, y)) then old(heap)[(x, y) := error((x, y))] else old(heap)
    {
      EdgeEnds(mesh.vertices, mesh.edges, mesh.faces, x, y);
      if mesh.ValidEdge(x, y) {
        heap := heap[(x, y) := error((x, y))];
      }
    }

    /** Queues all edges round `v` but those to the border. */
    method QueueRound(v: nat, error: Edge -> real)
      requires Ready() && v < mesh.size && Used(mesh.T(), v) && ClosedAt(mesh.T(), v) && forall e | e in heap :: !KeyAt(e, v)
      modifies this`heap
      ensures Ready() && Requeued(old(heap), heap, mesh.T(), v, error)
    {
      hide Ring, Used, MeshOk, QueuedTo, Requeued, KeysLive, KeyAt, AcrossOf, RingWalk, Triangles, ClosedAt;
      ghost var t, heap0 := mesh.T(), heap;
      UsedNamed(mesh.vertices, mesh.edges, v);
      OffBorder(mesh.vertices, mesh.edges, mesh.faces, v);
      var last := mesh.VertexEdge(v);
      EdgesInSurface(mesh.edges);
      assert HasRing(t, v);
      ghost var ring := RingFrom(t, v, last.value);
      RingFacts(t, v, ring);
      QueueFrom(v, last.value, ring, error);
      QueuedAll(heap0, heap, t, v, ring, error);
    }

    /** The loop over the ring of `v`. */
    method QueueFrom(v: nat, last: nat, ghost ring: seq<nat>, error: Edge -> real)
      requires mesh.Valid() && AllNamed(mesh.vertices, mesh.edges)
      requires RingWalk(mesh.T(), v, ring) && ring[0] == last && forall e | e in heap :: !KeyAt(e, v)
      modifies this`heap
      ensures QueuedTo(mesh.T(), old(heap), heap, v, ring, |ring|, error)
    {
      hide MeshOk, ClosedAt, AllNamed, QueuedTo, KeyAt, AcrossOf, Inside;
      ghost var t, heap0 := mesh.T(), heap;
      QueueStart(t, heap0, v, ring, error);
      EdgesInSurface(mesh.edges);
      var u := last;
      ghost var i := 0;
      while true
        invariant 0 <= i < |ring| && u == ring[i]
        invariant QueuedTo(t, heap0, heap, v, ring, i, error)
        decreases |ring| - i
      {
        assert WalkStep(t, v, ring, i);
        QueueNext(t, heap0, heap, v, ring, i, error);
        if v < u { AddToHeap(v, u, error); } else { AddToHeap(u, v, error); }
        u := mesh.edges[(v, u)].vertex;
        i := i + 1;
        if u == last { break; }
      }
    }

    /** One round: takes an edge of least error off the queue and, when the topology and the geometry allow it,
        collapses it and queues the edges round the vertex that stays. */
    method Iterate(geometry: Edge -> bool, error: Edge -> real) returns (done: bool, ghost top: Edge)
      requires Ready() && heap != map[]
      modifies this`heap, this`invalid, mesh`vertices, mesh`edges, mesh`faces, mesh`maxFace
      ensures Ready() && top in old(heap) && forall e | e in old(heap) :: old(heap)[top] <= old(heap)[e]
      ensures done <==> Inside(old(mesh.T()), top) && top !in old(invalid) && LinkCondition(old(mesh.T()), top.0, top.1) && geometry(top)
      ensures !done ==> unchanged(mesh) && heap == old(heap) - {top}
      ensures done ==> IsCollapse(old(mesh.T()), mesh.T(), top.0, top.1) && |mesh.faces| == old(|mesh.faces|) - 2
      ensures done ==> Requeued(Without(Without(old(heap), top.0), top.1), heap, mesh.T(), top.1, error)
      ensures invalid == AfterRefusal(old(mesh.T()), old(invalid), top)
      ensures old(KeysInside(heap, mesh.T())) ==> KeysInside(heap, mesh.T())
      ensures BorderSides(mesh.T()) == old(BorderSides(mesh.T()))
      ensures TwiceEuler(mesh.T(), |mesh.faces|) == old(TwiceEuler(mesh.T(), |mesh.faces|))
    {
      hide Ring, MeshOk, AllNamed, LinkCondition, Collapsible, IsCollapse, Requeued, AcrossOf, TwiceEuler, Surface, KeysLive, ClosedAt, BorderSides,
        AfterRefusal, KeysInside, Without;
      ghost var t, heap0, invalid0 := mesh.T(), heap, invalid;
      var e := Top();
      top := e;
      PopKeepsLive(heap, t, e);
      heap := heap - {e};
      var v0, v1 := e.0, e.1;
      EdgeEnds(mesh.vertices, mesh.edges, mesh.faces, v0, v1);
      if !mesh.ValidEdge(v0, v1) {
        NotRefused(t, invalid0, e);
        return false, top;
      }
      ghost var ring := EdgeRing(t, v0, v1);
      var ok := CheckTopology(v0, v1, ring);
      RefusedByWalk(t, invalid0, e, ring, ok);
      WalkIsLinkCondition(t, v0, v1, ring);
      if !ok { return false, top; }
      if !geometry(e) { return false, top; }
      CollapseTop(v0, v1, ring, error);
      WithoutTwice(heap0, e);
      return true, top;
    }

    /** The part of `iterate` that changes the mesh: no key is left at either end when the edge goes. */
    method CollapseTop(v0: nat, v1: nat, ghost ring: seq<nat>, error: Edge -> real)
      requires Ready() && Collapsible(mesh.T(), v0, v1, ring) && Canonical(v0, v1) !in heap
      modifies this`heap, mesh`vertices, mesh`edges, mesh`faces, mesh`maxFace
      ensures Ready() && IsCollapse(old(mesh.T()), mesh.T(), v0, v1) && |mesh.faces| == old(|mesh.faces|) - 2
      ensures Requeued(Without(Without(old(heap), v0), v1), heap, mesh.T(), v1, error)
      ensures old(KeysInside(heap, mesh.T())) ==> KeysInside(heap, mesh.T())
      ensures BorderSides(mesh.T()) == old(BorderSides(mesh.T()))
      ensures TwiceEuler(mesh.T(), |mesh.faces|) == old(TwiceEuler(mesh.T(), |mesh.faces|))
    {
      hide Ring, MeshOk, AllNamed, Collapsible, IsCollapse, Requeued, AcrossOf, TwiceEuler, Surface, KeysLive, Without, ClosedAt, BorderSides,
        KeysInside;
      ghost var t, heap0, n := mesh.T(), heap, |mesh.faces|;
      ghost var other := TopFacts(t, v0, v1, ring);
      SurfaceSize(mesh.vertices, mesh.edges, mesh.faces);
      EraseRound(v0, v1, ring);
      WithoutLive(heap0, t, v0);
      EraseRound(v1, v0, other);
      ghost var heap1 := heap;
      var v := mesh.CollapseEdge(v0, v1, ring);
      SurfaceSize(mesh.vertices, mesh.edges, mesh.faces);
      AfterCollapse(t, mesh.T(), v0, v1, ring, heap0, n);
      UsedNamed(mesh.vertices, mesh.edges, v);
      QueueRound(v, error);
      RequeuedInside(heap1, heap, mesh.T(), v, error);
    }

    /** Queues every edge off the border once, with its error, from the face in which it runs up. */
    method InitHeap(error: Edge -> real)
      requires Ready() && heap == map[]
      modifies this`heap
      ensures Ready() && KeysInside(heap, mesh.T())
      ensures forall e: Edge {:trigger e in heap} :: e in heap <==> e.0 < e.1 && e in mesh.edges && Inside(mesh.T(), e)
      ensures forall e | e in heap :: heap[e] == error(e)
    {
      hide MeshOk, AllNamed, AcrossOf, Surface, QueuedFaces, Triangles, Closed, Inside;
      var ids := mesh.faces.Keys;
      InitStart(mesh.edges, mesh.faces, error);
      while ids != {}
        invariant ids <= mesh.faces.Keys
        invariant QueuedFaces(heap, mesh.edges, mesh.faces.Keys - ids, error)
        decreases |ids|
      {
        var id: nat :| id in ids;
        QueueFace(id, mesh.faces.Keys - ids, error);
        assert mesh.faces.Keys - (ids - {id}) == mesh.faces.Keys - ids + {id};
        ids := ids - {id};
      }
      InitEnd(mesh.vertices, mesh.edges, mesh.faces, heap, error);
    }

    method QueueFace(id: nat, ghost done: set<nat>, error: Edge -> real)
      requires mesh.Valid() && AllNamed(mesh.vertices, mesh.edges)
      requires id in mesh.faces && id !in done && QueuedFaces(heap, mesh.edges, done, error)
      modifies this`heap
      ensures QueuedFaces(heap, mesh.edges, done + {id}, error)
    {
      hide MeshOk, AllNamed, AcrossOf, QueuedFaces, Triangles, Closed, Inside;
      var f := mesh.faces[id];
      ghost var heap0 := heap;
      FaceKeys(mesh.vertices, mesh.edges, mesh.faces, heap, done, id, error);
      if f.v0 < f.v1 { AddToHeap(f.v0, f.v1, error); }
      if f.v1 < f.v2 { AddToHeap(f.v1, f.v2, error); }
      if f.v2 < f.v0 { AddToHeap(f.v2, f.v0, error); }
      FaceQueued(mesh.vertices, mesh.edges, mesh.faces, heap0, heap, done, id, error);
    }

    /** What round `step` means for the loop: the run goes on, with two faces fewer, or a shorter queue. */
    method Round(step: nat, goal: Goal, geometry: (nat, Edge) -> bool, error: (nat, Edge) -> real, ghost run: seq<State>)
        returns (ghost run': seq<State>)
      requires Ready() && heap != map[]
      requires Run(run, goal, geometry, error) && |run| == step + 1 && run[step] == Now() && exists e :: Least(heap, e) && !goal.Met(Now(), e)
      modifies this`heap, this`invalid, mesh`vertices, mesh`edges, mesh`faces, mesh`maxFace
      ensures Ready() && TwiceEuler(mesh.T(), |mesh.faces|) == old(TwiceEuler(mesh.T(), |mesh.faces|))
      ensures Run(run', goal, geometry, error) && run' == run + [Now()]
      ensures BorderSides(mesh.T()) == old(BorderSides(mesh.T()))
      ensures old(KeysInside(heap, mesh.T())) ==> KeysInside(heap, mesh.T())
      ensures |mesh.faces| == old(|mesh.faces|) - 2 || (|mesh.faces| == old(|mesh.faces|) && |heap| < |old(heap)|)
    {
      hide MeshOk, AllNamed, AcrossOf, Surface, TwiceEuler, KeysLive, LinkCondition, IsCollapse, Requeued, Without, BorderSides, KeysInside,
        AfterRefusal, Inside, Run;
      ghost var was := Now();
      var done;
      ghost var top;
      done, top := Iterate(e => geometry(step, e), e => error(step, e));
      if !done { PopShrinks(was.heap, top); }
      assert RoundOn(was, Now(), top, geometry(step, top), e => error(step, e));
      RunOn(run, Now(), top, goal, geometry, error);
      run' := run + [Now()];
    }

    /** Collapses edges until the queue is empty, the target is met, or the errors are too large; `run` are the states it
        goes through. The border stays what it was; so a mesh without one, a manifold, is a manifold in the end. */
    method Optimize(goal: Goal, geometry: (nat, Edge) -> bool, error: (nat, Edge) -> real) returns (count: nat, ghost run: seq<State>)
      requires Ready()
      modifies this`heap, this`invalid, mesh`vertices, mesh`edges, mesh`faces, mesh`maxFace
      ensures Ready() && invalid == {} && count == |mesh.faces|
      ensures Run(run, goal, geometry, error) && run[0] == old(Now()) && Now() == run[|run| - 1].(refused := {})
      ensures forall top | Least(heap, top) :: goal.Met(Now(), top)
      ensures count <= old(|mesh.faces|) && (old(|mesh.faces|) - count) % 2 == 0
      ensures TwiceEuler(mesh.T(), count) == old(TwiceEuler(mesh.T(), |mesh.faces|))
      ensures BorderSides(mesh.T()) == old(BorderSides(mesh.T()))
      ensures old(Manifold(mesh.T())) ==> Manifold(mesh.T())
      ensures old(KeysInside(heap, mesh.T())) ==> KeysInside(heap, mesh.T())
    {
      hide MeshOk, AllNamed, AcrossOf, Surface, Manifold, TwiceEuler, KeysLive, BorderSides, KeysInside, RoundOn, Run;
      var step: nat := 0;
      ghost var t, n, inside := mesh.T(), |mesh.faces|, KeysInside(heap, mesh.T());
      run := [Now()];
      RunStart(Now(), goal, geometry, error);
      while heap != map[]
        invariant Ready() && |run| == step + 1 && run[step] == Now() && run[0] == old(Now()) && Run(run, goal, geometry, error)
        invariant |mesh.faces| <= n && (n - |mesh.faces|) % 2 == 0
        invariant TwiceEuler(mesh.T(), |mesh.faces|) == TwiceEuler(t, n) && BorderSides(mesh.T()) == BorderSides(t)
        invariant inside ==> KeysInside(heap, mesh.T())
        decreases |mesh.faces|, |heap|
      {
        var top := Top();
        assert Least(heap, top);
        if (|mesh.faces| <= goal.target && heap[top] >= goal.minError) || heap[top] > goal.maxError { break; }
        assert !goal.Met(Now(), top);
        run := Round(step, goal, geometry, error, run);
        step := step + 1;
      }
      invalid := {};
      count := |mesh.faces|;
      ManifoldIsClosed(t);
      ManifoldIsClosed(mesh.T());
    }
  }

  lemma RunStart(s: State, goal: Goal, geometry: (nat, Edge) -> bool, error: (nat, Edge) -> real)
    ensures Run([s], goal, geometry, error)
  {
  }

  ghost predicate Least(heap: map<Edge, real>, top: Edge) {
    top in heap && forall e | e in heap :: heap[top] <= heap[e]
  }

  lemma PopShrinks(heap: map<Edge, real>, e: Edge)
    requires e in heap
    ensures |heap - {e}| < |heap|
  {
    assert (heap - {e}).Keys + {e} == heap.Keys;
  }

  /** While the queue is filled: the canonical half-edges off the border of the faces in `done`, with their errors. */
  ghost predicate QueuedFaces(heap: map<Edge, real>, edges: map<Edge, HalfEdge>, done: set<nat>, error: Edge -> real) {
    && (forall e: Edge {:trigger e in heap} ::
      e in heap <==> e.0 < e.1 && e in edges && Inside(AcrossOf(edges), e) && edges[e].face in done)
    && Errors(map[], heap, error)
  }

  lemma InitStart(edges: map<Edge, HalfEdge>, faces: map<nat, Face>, error: Edge -> real)
    ensures QueuedFaces(map[], edges, faces.Keys - faces.Keys, error)
  {
  }

  lemma InitEnd(vs: seq<Vertex>, edges: map<Edge, HalfEdge>, faces: map<nat, Face>, heap: map<Edge, real>, error: Edge -> real)
    requires MeshOk(vs, edges, faces) && QueuedFaces(heap, edges, faces.Keys - {}, error)
    ensures forall e | e in heap :: heap[e] == error(e)
    ensures KeysLive(heap, AcrossOf(edges)) && KeysInside(heap, AcrossOf(edges))
    ensures forall e: Edge {:trigger e in heap} :: e in heap <==> e.0 < e.1 && e in edges && Inside(AcrossOf(edges), e)
  {
    hide Inside;
    SurfaceOfMesh(edges, faces, |vs|);
  }

  /** The sides of a face not done yet are not queued. */
  lemma FaceKeys(vs: seq<Vertex>, edges: map<Edge, HalfEdge>, faces: map<nat, Face>, heap: map<Edge, real>, done: set<nat>, id: nat,
      error: Edge -> real)
    requires MeshOk(vs, edges, faces) && QueuedFaces(heap, edges, done, error) && id in faces && id !in done
    ensures var f := faces[id];
      && f.v0 != f.v1 && f.v1 != f.v2 && f.v2 != f.v0
      && (f.v0, f.v1) in edges && (f.v1, f.v2) in edges && (f.v2, f.v0) in edges
      && (f.v0, f.v1) !in heap && (f.v1, f.v2) !in heap && (f.v2, f.v0) !in heap
  {
    assert SidesOk(edges, id, faces[id]);
  }

  lemma FaceQueued(vs: seq<Vertex>, edges: map<Edge, HalfEdge>, faces: map<nat, Face>, heap0: map<Edge, real>, heap: map<Edge, real>, done: set<nat>, id: nat,
      error: Edge -> real)
    requires MeshOk(vs, edges, faces) && QueuedFaces(heap0, edges, done, error) && Errors(heap0, heap, error) && id in faces
    requires var f := faces[id]; forall e: Edge {:trigger e in heap} :: e in heap <==>
      e in heap0 || (e.0 < e.1 && Inside(AcrossOf(edges), e) && (e == (f.v0, f.v1) || e == (f.v1, f.v2) || e == (f.v2, f.v0)))
    ensures QueuedFaces(heap, edges, done + {id}, error)
  {
    hide Inside, AcrossOf;
    assert SidesOk(edges, id, faces[id]);
    forall e: Edge ensures e in heap <==> e.0 < e.1 && e in edges && Inside(AcrossOf(edges), e) && edges[e].face in done + {id} {
      assert OwnerOk(edges, faces, e);
    }
  }

  lemma PopKeepsLive(heap: map<Edge, real>, t: Across, e: Edge)
    requires KeysLive(heap, t) && e in heap
    ensures KeysLive(heap - {e}, t) && (e.0, e.1) in t && Canonical(e.0, e.1) == e
    ensures KeysInside(heap, t) ==> KeysInside(heap - {e}, t)
  {
  }

  /** The test `valid_edge` asks whether both ends are off the border. */
  lemma EdgeEnds(vs: seq<Vertex>, edges: map<Edge, HalfEdge>, faces: map<nat, Face>, v0: nat, v1: nat)
    requires MeshOk(vs, edges, faces) && AllNamed(vs, edges) && (v0, v1) in AcrossOf(edges)
    ensures v0 < |vs| && v1 < |vs|
    ensures IsValid(vs[v0]) && IsValid(vs[v1]) && !OnBorder(vs[v0]) && !OnBorder(vs[v1]) <==> Inside(AcrossOf(edges), (v0, v1))
  {
    SurfaceOfMesh(edges, faces, |vs|);
    assert (v0, v1) in edges;
    OffBorder(vs, edges, faces, v0);
    OffBorder(vs, edges, faces, v1);
    if ClosedAt(AcrossOf(edges), v1) {
      assert SharedSpoke(AcrossOf(edges), v1, v0);
      assert (v1, v0) in edges;
    }
  }

  /** The ring of v0 from v1. */
  lemma EdgeRing(t: Across, v0: nat, v1: nat) returns (ring: seq<nat>)
    requires Surface(t) && (v0, v1) in t && ClosedAt(t, v0)
    ensures Triangles(t) && Ring(t, v0, ring) && ring[0] == v1
  {
    assert Used(t, v0) && HasRing(t, v0);
    ring := RingFrom(t, v0, v1);
  }

  /** The ring of v1 from v0. */
  lemma TopFacts(t: Across, v0: nat, v1: nat, ring: seq<nat>) returns (other: seq<nat>)
    requires Surface(t) && Collapsible(t, v0, v1, ring)
    ensures Triangles(t) && Ring(t, v0, ring) && ring[0] == v1 && ClosedAt(t, v0) && ClosedAt(t, v1)
    ensures Ring(t, v1, other) && other[0] == v0 && v0 != v1
  {
    OnEdge(t, v0, v1, ring);
    other := EdgeRing(t, v1, v0);
  }

  /** Of the keys queued after a collapse none touches the border, if none did before. */
  lemma RequeuedInside(heap0: map<Edge, real>, heap: map<Edge, real>, t: Across, v: nat, error: Edge -> real)
    requires Requeued(heap0, heap, t, v, error)
    ensures KeysInside(heap0, t) ==> KeysInside(heap, t)
  {
    hide Inside;
  }

  lemma WithoutLive(heap: map<Edge, real>, t: Across, v: nat)
    requires KeysLive(heap, t)
    ensures KeysLive(Without(heap, v), t)
    ensures forall e | e in Without(heap, v) :: e in heap
  {
  }

  lemma WithoutTwice(heap: map<Edge, real>, e: Edge)
    ensures Without(heap - {e}, e.0) == Without(heap, e.0)
  {
  }

  lemma AfterCollapse(t: Across, m: Across, v0: nat, v1: nat, ring: seq<nat>, heap: map<Edge, real>, n: nat)
    requires Surface(t) && Collapsible(t, v0, v1, ring) && IsCollapse(t, m, v0, v1) && Triangles(m) && KeysLive(heap, t)
    requires n >= 2 && |t| == 3 * n && |m| == 3 * (n - 2)
    ensures Surface(m) && Used(m, v1) && ClosedAt(m, v1)
    ensures BorderSides(m) == BorderSides(t) && TwiceEuler(m, n - 2) == TwiceEuler(t, n)
    ensures KeysLive(Without(Without(heap, v0), v1), m)
    ensures KeysInside(heap, t) ==> KeysInside(Without(Without(heap, v0), v1), m)
    ensures forall e | e in Without(Without(heap, v0), v1) :: !KeyAt(e, v1)
  {
    OnEdge(t, v0, v1, ring);
    assert Used(t, v1);
    hide IsCollapse, TwiceEuler, KeysLive, Surface, Collapsible, ClosedAt, BorderSides;
    CollapseSurface(t, m, v0, v1, ring);
    CollapseKeepsBorder(t, m, v0, v1, ring);
    CollapseKeepsEuler(t, m, v0, v1, ring, n);
    KeysSurvive(heap, t, m, v0, v1);
    CollapsibleEnds(t, v0, v1, ring);
  }

  lemma EdgesInSurface(edges: map<Edge, HalfEdge>)
    ensures forall e {:trigger e in edges} :: e in edges <==> e in AcrossOf(edges)
    ensures forall e {:trigger AcrossOf(edges)[e]} | e in edges :: AcrossOf(edges)[e] == edges[e].vertex
  {
  }

  lemma UsedNamed(vs: seq<Vertex>, edges: map<Edge, HalfEdge>, v: nat)
    requires Used(AcrossOf(edges), v) && AllNamed(vs, edges)
    ensures v < |vs| && IsValid(vs[v])
  {
    var x: nat :| (v, x) in AcrossOf(edges);
    assert (v, x) in edges;
  }

  /** Going round: distinct vertices, each followed by the vertex across the spoke to it, and back to the start. */
  ghost predicate RingWalk(t: Across, v: nat, ring: seq<nat>) {
    Distinct(ring) && ring != [] && forall i {:trigger WalkStep(t, v, ring, i)} | 0 <= i < |ring| :: WalkStep(t, v, ring, i)
  }

  ghost predicate WalkStep(t: Across, v: nat, ring: seq<nat>, i: int) {
    0 <= i < |ring| && Tri(t, v, ring[i], After(ring, i)) && (ring[i], v) in t && ring[i] != v
  }

  lemma RingFacts(t: Across, v: nat, ring: seq<nat>)
    requires Triangles(t) && Ring(t, v, ring)
    ensures RingWalk(t, v, ring)
  {
    forall i | 0 <= i < |ring| ensures WalkStep(t, v, ring, i) {
      assert RingStep(t, v, ring, i);
      assert SideOk(t, v, ring[i], After(ring, i));
      var j := if i == 0 then |ring| - 1 else i - 1;
      assert RingStep(t, v, ring, j);
      assert SideOk(t, v, ring[j], ring[i]);
    }
  }
}
