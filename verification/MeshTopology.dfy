/** Triangulated surfaces as maps from a directed edge to the vertex across it: rings of neighbours, and what
    collapsing an edge does to them. */
module MeshTopology {
  import opened Paths

  /** For each directed side of a triangle, the third corner. */
  type Across = map<Edge, nat>

  /** x, y, z are the corners of a triangle, in order. */
  predicate Tri(t: Across, x: nat, y: nat, z: nat) {
    (x, y) in t && t[(x, y)] == z
  }

  ghost predicate SideOk(t: Across, x: nat, y: nat, z: nat) {
    Tri(t, x, y, z) ==> x != y && y != z && z != x && Tri(t, y, z, x) && Tri(t, z, x, y)
  }

  /** Triangles have three distinct corners and own all three sides. */
  ghost predicate Triangles(t: Across) {
    forall x: nat, y: nat, z: nat :: SideOk(t, x, y, z)
  }

  ghost predicate SharedSide(t: Across, x: nat, y: nat) {
    (x, y) in t ==> (y, x) in t
  }

  /** Every side is shared by a triangle on its other side. */
  ghost predicate Closed(t: Across) {
    forall x: nat, y: nat :: SharedSide(t, x, y)
  }

  ghost predicate SharedSpoke(t: Across, v: nat, x: nat) {
    (v, x) in t <==> (x, v) in t
  }

  /** Every side at `v` is shared: the vertex is off the border of the surface. */
  ghost predicate ClosedAt(t: Across, v: nat) {
    forall x: nat {:trigger SharedSpoke(t, v, x)} :: SharedSpoke(t, v, x)
  }

  // ---------- rings ----------

  /** The element after position `i`, going round. */
  function After(r: seq<nat>, i: nat): (x: nat)
    requires i < |r|
  {
    if i + 1 < |r| then r[i + 1] else r[0]
  }

  ghost predicate Distinct(r: seq<nat>) {
    forall i, j | 0 <= i < |r| && 0 <= j < |r| && r[i] == r[j] :: i == j
  }

  /** Walking round `v` visits all its neighbours, in the order of `r`, in one cycle. */
  ghost predicate Ring(t: Across, v: nat, r: seq<nat>) {
    && r != [] && Distinct(r)
    && (forall i {:trigger RingStep(t, v, r, i)} | 0 <= i < |r| :: RingStep(t, v, r, i))
    && (forall x: nat {:trigger Around(t, v, r, x)} :: Around(t, v, r, x))
  }

  ghost predicate RingStep(t: Across, v: nat, r: seq<nat>, i: int) {
    0 <= i < |r| && Tri(t, v, r[i], After(r, i))
  }

  ghost predicate Around(t: Across, v: nat, r: seq<nat>, x: nat) {
    (v, x) in t ==> x in r
  }

  ghost predicate HasRing(t: Across, v: nat) {
    exists r :: Ring(t, v, r)
  }

  ghost predicate Used(t: Across, v: nat) {
    exists x: nat :: (v, x) in t
  }

  /** A surface, with or without a border: every vertex in use that is off the border has a single ring of neighbours. */
  ghost predicate Surface(t: Across) {
    && Triangles(t)
    && forall v: nat {:trigger HasRing(t, v)} :: Used(t, v) && ClosedAt(t, v) ==> HasRing(t, v)
  }

  /** A closed surface whose every vertex in use has a single ring of neighbours. */
  ghost predicate Manifold(t: Across) {
    && Triangles(t) && Closed(t)
    && forall v: nat {:trigger HasRing(t, v)} :: Used(t, v) ==> HasRing(t, v)
  }

  /** The sides without a triangle on the other side. */
  ghost function BorderSides(t: Across): (s: set<Edge>) {
    set e | e in t && (e.1, e.0) !in t
  }

  /** A manifold is a surface without a border. */
  lemma ManifoldIsClosed(t: Across)
    ensures Manifold(t) <==> Surface(t) && Closed(t)
    ensures Closed(t) <==> BorderSides(t) == {}
  {
    assert forall x: nat, y: nat :: (x, y) in BorderSides(t) <==> !SharedSide(t, x, y);
    forall v: nat | Closed(t) ensures ClosedAt(t, v) {
      forall x: nat ensures SharedSpoke(t, v, x) { assert SharedSide(t, v, x) && SharedSide(t, x, v); }
    }
  }

  function Rotate(r: seq<nat>, k: nat): (s: seq<nat>)
    requires k <= |r|
  {
    r[k..] + r[..k]
  }

  /** A ring may be read from any of its vertices. */
  lemma RotateRing(t: Across, v: nat, r: seq<nat>, k: nat)
    requires Ring(t, v, r) && k < |r|
    ensures Ring(t, v, Rotate(r, k)) && Rotate(r, k)[0] == r[k]
  {
    var s := Rotate(r, k);
    forall i, j | 0 <= i < |s| && 0 <= j < |s| && s[i] == s[j] ensures i == j {
      var i', j' := if i + k < |r| then i + k else i + k - |r|, if j + k < |r| then j + k else j + k - |r|;
      assert s[i] == r[i'] && s[j] == r[j'];
    }
    forall i | 0 <= i < |s| ensures RingStep(t, v, s, i) {
      var i' := if i + k < |r| then i + k else i + k - |r|;
      assert RingStep(t, v, r, i');
    }
    forall x: nat ensures Around(t, v, s, x) {
      assert Around(t, v, r, x);
      if x in r {
        var i :| 0 <= i < |r| && r[i] == x;
        assert s[if i >= k then i - k else i - k + |r|] == x;
      }
    }
  }

  /** The ring of `v` read from its neighbour `x`. */
  lemma RingFrom(t: Across, v: nat, x: nat) returns (r: seq<nat>)
    requires HasRing(t, v) && (v, x) in t
    ensures Ring(t, v, r) && r[0] == x
  {
    var s :| Ring(t, v, s);
    assert Around(t, v, s, x);
    var k: nat :| k < |s| && s[k] == x;
    RotateRing(t, v, s, k);
    r := Rotate(s, k);
  }

  /** The triangle before ring position `i` seen from the other side: who precedes whom. */
  lemma RingBefore(t: Across, v: nat, r: seq<nat>, x: nat, y: nat)
    requires Triangles(t) && Ring(t, v, r) && Tri(t, v, x, y)
    ensures exists i: nat :: i < |r| && r[i] == x && After(r, i) == y
  {
    assert Around(t, v, r, x);
    var i: nat :| i < |r| && r[i] == x;
    assert RingStep(t, v, r, i);
  }

  // ---------- collapsing an edge ----------

  function WithTri(t: Across, x: nat, y: nat, z: nat): (r: Across) {
    t[(x, y) := z][(y, z) := x][(z, x) := y]
  }

  function WithoutTri(t: Across, x: nat, y: nat, z: nat): (r: Across) {
    t - {(x, y), (y, z), (z, x)}
  }

  /** The collapse of a into b is allowed: both are off the border, `ring` is the ring of `a` from `b`, has at least three
      vertices, and of its inner vertices none is a neighbour of `b`. The surface may have a border elsewhere. */
  ghost predicate Collapsible(t: Across, a: nat, b: nat, ring: seq<nat>) {
    && Triangles(t) && ClosedAt(t, a) && ClosedAt(t, b) && Ring(t, a, ring) && ring[0] == b && |ring| >= 3
    && forall j | 2 <= j < |ring| - 1 :: (b, ring[j]) !in t
  }

  /** The surface after the first `i - 1` triangles behind the two on the edge have been moved from a to b. */
  function Moved(t: Across, a: nat, b: nat, ring: seq<nat>, i: nat): (m: Across)
    requires 1 <= i < |ring|
  {
    if i == 1 then WithoutTri(WithoutTri(t, a, b, ring[1]), b, a, ring[|ring| - 1])
    else WithTri(WithoutTri(Moved(t, a, b, ring, i - 1), a, ring[i - 1], ring[i]), b, ring[i - 1], ring[i])
  }

  /** x, y, z read from one of its corners is the triangle at `v` behind ring position `j`. */
  ghost predicate TriAt(ring: seq<nat>, v: nat, j: int, x: nat, y: nat, z: nat) {
    0 <= j < |ring| &&
    ((x == v && y == ring[j] && z == After(ring, j))
      || (y == v && z == ring[j] && x == After(ring, j))
      || (z == v && x == ring[j] && y == After(ring, j)))
  }

  ghost predicate Gone(ring: seq<nat>, a: nat, i: int, x: nat, y: nat, z: nat) {
    exists j :: TriAt(ring, a, j, x, y, z) && (j < i || j == |ring| - 1)
  }

  ghost predicate Added(ring: seq<nat>, b: nat, i: int, x: nat, y: nat, z: nat) {
    exists j :: TriAt(ring, b, j, x, y, z) && 1 <= j < i
  }

  ghost predicate MovedTri(t: Across, a: nat, b: nat, ring: seq<nat>, i: int, x: nat, y: nat, z: nat) {
    (Tri(t, x, y, z) && !Gone(ring, a, i, x, y, z)) || Added(ring, b, i, x, y, z)
  }

  /** The triangles of the collapsed surface: those without `a`, and those at `a` but not on the edge, with `b` in the
      place of `a`. */
  ghost predicate CollapsedTri(t: Across, a: nat, b: nat, x: nat, y: nat, z: nat) {
    x != a && y != a && z != a &&
    (|| Tri(t, x, y, z)
     || (x == b && y != b && z != b && Tri(t, a, y, z))
     || (y == b && x != b && z != b && Tri(t, x, a, z))
     || (z == b && x != b && y != b && Tri(t, x, y, a)))
  }

  /** Ring vertices are distinct from each other and from `a`. */
  lemma RingApart(t: Across, a: nat, ring: seq<nat>)
    requires Triangles(t) && Ring(t, a, ring)
    ensures forall i | 0 <= i < |ring| :: ring[i] != a
  {
    forall i | 0 <= i < |ring| ensures ring[i] != a {
      assert RingStep(t, a, ring, i);
      assert SideOk(t, a, ring[i], After(ring, i));
    }
  }

  /** Taking a triangle out takes out just its three corners' readings. */
  lemma WithoutTriChar(t: Across, u: nat, v: nat, w: nat, x: nat, y: nat, z: nat)
    requires Triangles(t) && Tri(t, u, v, w)
    ensures Tri(WithoutTri(t, u, v, w), x, y, z) <==> Tri(t, x, y, z) && !SameTri(u, v, w, x, y, z)
  {
    assert SideOk(t, u, v, w);
  }

  ghost predicate SameTri(u: nat, v: nat, w: nat, x: nat, y: nat, z: nat) {
    (x == u && y == v && z == w) || (x == v && y == w && z == u) || (x == w && y == u && z == v)
  }

  lemma WithTriChar(t: Across, u: nat, v: nat, w: nat, x: nat, y: nat, z: nat)
    requires u != v && v != w && w != u && (u, v) !in t && (v, w) !in t && (w, u) !in t
    ensures Tri(WithTri(t, u, v, w), x, y, z) <==> Tri(t, x, y, z) || SameTri(u, v, w, x, y, z)
  {
  }

  lemma WithoutTriOk(t: Across, u: nat, v: nat, w: nat)
    requires Triangles(t) && Tri(t, u, v, w)
    ensures Triangles(WithoutTri(t, u, v, w))
  {
    var m := WithoutTri(t, u, v, w);
    forall x: nat, y: nat, z: nat ensures SideOk(m, x, y, z) {
      assert SideOk(t, x, y, z) && SideOk(t, u, v, w);
    }
  }

  lemma WithTriOk(t: Across, u: nat, v: nat, w: nat)
    requires Triangles(t) && u != v && v != w && w != u && (u, v) !in t && (v, w) !in t && (w, u) !in t
    ensures Triangles(WithTri(t, u, v, w))
  {
    var m := WithTri(t, u, v, w);
    forall x: nat, y: nat, z: nat ensures SideOk(m, x, y, z) {
      assert SideOk(t, x, y, z);
    }
  }

  /** The two triangles on the edge. */
  lemma OnEdge(t: Across, a: nat, b: nat, ring: seq<nat>)
    requires Collapsible(t, a, b, ring)
    ensures Tri(t, a, b, ring[1]) && Tri(t, b, a, ring[|ring| - 1]) && a != b
    ensures Triangles(WithoutTri(t, a, b, ring[1])) && Tri(WithoutTri(t, a, b, ring[1]), b, a, ring[|ring| - 1])
  {
    var last := |ring| - 1;
    assert RingStep(t, a, ring, 0) && RingStep(t, a, ring, last);
    assert SideOk(t, a, b, ring[1]) && SideOk(t, a, ring[last], b);
    WithoutTriOk(t, a, b, ring[1]);
    WithoutTriChar(t, a, b, ring[1], b, a, ring[last]);
  }

  lemma MovedStartChar(t: Across, a: nat, b: nat, ring: seq<nat>, x: nat, y: nat, z: nat)
    requires Collapsible(t, a, b, ring)
    ensures Tri(Moved(t, a, b, ring, 1), x, y, z) <==> MovedTri(t, a, b, ring, 1, x, y, z)
  {
    var last := |ring| - 1;
    OnEdge(t, a, b, ring);
    WithoutTriChar(t, a, b, ring[1], x, y, z);
    WithoutTriChar(WithoutTri(t, a, b, ring[1]), b, a, ring[last], x, y, z);
    assert TriAt(ring, a, 0, x, y, z) <==> SameTri(a, b, ring[1], x, y, z);
    assert TriAt(ring, a, last, x, y, z) <==> SameTri(b, a, ring[last], x, y, z);
  }

  /** No half-edge of the triangle moved to `b` is in the way. */
  lemma Free(t: Across, a: nat, b: nat, ring: seq<nat>, i: nat, m: Across)
    requires Collapsible(t, a, b, ring) && 2 <= i < |ring|
    requires forall x: nat, y: nat, z: nat {:trigger Tri(m, x, y, z)} :: Tri(m, x, y, z) <==> MovedTri(t, a, b, ring, i - 1, x, y, z)
    ensures (b, ring[i - 1]) !in m && (ring[i], b) !in m && Tri(m, a, ring[i - 1], ring[i])
  {
    var v, nv := ring[i - 1], ring[i];
    RingApart(t, a, ring);
    assert RingStep(t, a, ring, i - 1);
    OnEdge(t, a, b, ring);
    if (b, v) in m {
      var w := m[(b, v)];
      assert Tri(m, b, v, w);
      FreeOut(t, a, b, ring, i, w);
      assert false;
    }
    if (nv, b) in m {
      var w := m[(nv, b)];
      assert Tri(m, nv, b, w);
      FreeIn(t, a, b, ring, i, w);
      assert false;
    }
    if Gone(ring, a, i - 1, a, v, nv) {
      var j :| TriAt(ring, a, j, a, v, nv) && (j < i - 1 || j == |ring| - 1);
      assert false;
    }
    assert Tri(m, a, v, nv);
  }

  lemma FreeOut(t: Across, a: nat, b: nat, ring: seq<nat>, i: nat, w: nat)
    requires Collapsible(t, a, b, ring) && 2 <= i < |ring|
    ensures !MovedTri(t, a, b, ring, i - 1, b, ring[i - 1], w)
  {
    RingApart(t, a, ring);
    OnEdge(t, a, b, ring);
    var v := ring[i - 1];
    assert !Added(ring, b, i - 1, b, v, w);
    if i == 2 && Tri(t, b, v, w) {
      assert SideOk(t, a, b, v);
      assert TriAt(ring, a, 0, b, v, w);
    }
  }

  lemma FreeIn(t: Across, a: nat, b: nat, ring: seq<nat>, i: nat, w: nat)
    requires Collapsible(t, a, b, ring) && 2 <= i < |ring|
    ensures !MovedTri(t, a, b, ring, i - 1, ring[i], b, w)
  {
    RingApart(t, a, ring);
    OnEdge(t, a, b, ring);
    var nv := ring[i];
    assert !Added(ring, b, i - 1, nv, b, w);
    assert SharedSpoke(t, b, nv);
    if i == |ring| - 1 && Tri(t, nv, b, w) {
      assert SideOk(t, b, a, nv);
      assert TriAt(ring, a, i, nv, b, w);
    }
  }

  lemma MovedStepChar(t: Across, a: nat, b: nat, ring: seq<nat>, i: nat, x: nat, y: nat, z: nat)
    requires Collapsible(t, a, b, ring) && 2 <= i < |ring|
    ensures MovedTri(t, a, b, ring, i, x, y, z) <==>
      (MovedTri(t, a, b, ring, i - 1, x, y, z) && !SameTri(a, ring[i - 1], ring[i], x, y, z)) || SameTri(b, ring[i - 1], ring[i], x, y, z)
  {
    RingApart(t, a, ring);
    OnEdge(t, a, b, ring);
    assert TriAt(ring, a, i - 1, x, y, z) <==> SameTri(a, ring[i - 1], ring[i], x, y, z);
    assert TriAt(ring, b, i - 1, x, y, z) <==> SameTri(b, ring[i - 1], ring[i], x, y, z);
    assert Gone(ring, a, i, x, y, z) <==> Gone(ring, a, i - 1, x, y, z) || TriAt(ring, a, i - 1, x, y, z) by {
      if Gone(ring, a, i, x, y, z) {
        var j :| TriAt(ring, a, j, x, y, z) && (j < i || j == |ring| - 1);
      }
    }
    assert Added(ring, b, i, x, y, z) <==> Added(ring, b, i - 1, x, y, z) || TriAt(ring, b, i - 1, x, y, z) by {
      if Added(ring, b, i, x, y, z) {
        var j :| TriAt(ring, b, j, x, y, z) && 1 <= j < i;
      }
    }
    if Added(ring, b, i - 1, x, y, z) {
      var j :| TriAt(ring, b, j, x, y, z) && 1 <= j < i - 1;
      assert x != a && y != a && z != a;
    }
  }

  /** The intermediate surfaces have just the triangles they should. */
  lemma {:induction false} MovedChar(t: Across, a: nat, b: nat, ring: seq<nat>, i: nat)
    requires Collapsible(t, a, b, ring) && 1 <= i < |ring|
    ensures Triangles(Moved(t, a, b, ring, i))
    ensures forall x: nat, y: nat, z: nat {:trigger Tri(Moved(t, a, b, ring, i), x, y, z)} ::
      Tri(Moved(t, a, b, ring, i), x, y, z) <==> MovedTri(t, a, b, ring, i, x, y, z)
    decreases i
  {
    hide MovedTri, Ring, ClosedAt, Triangles, WithTri, WithoutTri;
    if i == 1 {
      OnEdge(t, a, b, ring);
      WithoutTriOk(WithoutTri(t, a, b, ring[1]), b, a, ring[|ring| - 1]);
      forall x: nat, y: nat, z: nat ensures Tri(Moved(t, a, b, ring, i), x, y, z) <==> MovedTri(t, a, b, ring, i, x, y, z) {
        MovedStartChar(t, a, b, ring, x, y, z);
      }
    } else {
      MovedNext(t, a, b, ring, i);
    }
  }

  lemma MovedNext(t: Across, a: nat, b: nat, ring: seq<nat>, i: nat)
    requires Collapsible(t, a, b, ring) && 2 <= i < |ring|
    ensures Triangles(Moved(t, a, b, ring, i))
    ensures forall x: nat, y: nat, z: nat {:trigger Tri(Moved(t, a, b, ring, i), x, y, z)} ::
      Tri(Moved(t, a, b, ring, i), x, y, z) <==> MovedTri(t, a, b, ring, i, x, y, z)
    decreases i, 0
  {
    hide MovedTri, Ring, ClosedAt, Triangles;
    var v, nv, m := ring[i - 1], ring[i], Moved(t, a, b, ring, i - 1);
    MovedChar(t, a, b, ring, i - 1);
    Free(t, a, b, ring, i, m);
    Corners(t, a, b, ring, i);
    WithoutTriOk(m, a, v, nv);
    var m1 := WithoutTri(m, a, v, nv);
    assert (b, v) !in m1 && (nv, b) !in m1 && (v, nv) !in m1;
    WithTriOk(m1, b, v, nv);
    forall x: nat, y: nat, z: nat ensures Tri(Moved(t, a, b, ring, i), x, y, z) <==> MovedTri(t, a, b, ring, i, x, y, z) {
      WithoutTriChar(m, a, v, nv, x, y, z);
      WithTriChar(m1, b, v, nv, x, y, z);
      MovedStepChar(t, a, b, ring, i, x, y, z);
    }
  }

  lemma Corners(t: Across, a: nat, b: nat, ring: seq<nat>, i: nat)
    requires Collapsible(t, a, b, ring) && 2 <= i < |ring|
    ensures a != b && b != ring[i - 1] && ring[i - 1] != ring[i] && ring[i] != b && ring[i] != a && ring[i - 1] != a
  {
    RingApart(t, a, ring);
    OnEdge(t, a, b, ring);
  }

  /** `m` is `t` with `a` collapsed into `b`. */
  ghost predicate IsCollapse(t: Across, m: Across, a: nat, b: nat) {
    forall x: nat, y: nat, z: nat {:trigger Tri(m, x, y, z)} :: Tri(m, x, y, z) <==> CollapsedTri(t, a, b, x, y, z)
  }

  lemma CollapsedForward(t: Across, a: nat, b: nat, ring: seq<nat>, x: nat, y: nat, z: nat)
    requires Collapsible(t, a, b, ring) && MovedTri(t, a, b, ring, |ring| - 1, x, y, z)
    ensures CollapsedTri(t, a, b, x, y, z)
  {
    RingApart(t, a, ring);
    OnEdge(t, a, b, ring);
    if Added(ring, b, |ring| - 1, x, y, z) {
      var j :| TriAt(ring, b, j, x, y, z) && 1 <= j < |ring| - 1;
      assert RingStep(t, a, ring, j);
      assert SideOk(t, a, ring[j], ring[j + 1]);
    } else {
      assert SideOk(t, x, y, z);
      if x == a { AtRing(t, a, ring, y, z, x, y, z); }
      if y == a { AtRing(t, a, ring, z, x, x, y, z); }
      if z == a { AtRing(t, a, ring, x, y, x, y, z); }
    }
  }

  /** A triangle at `a` is behind some position of its ring. */
  lemma AtRing(t: Across, a: nat, ring: seq<nat>, p: nat, q: nat, x: nat, y: nat, z: nat)
    requires Triangles(t) && Ring(t, a, ring) && Tri(t, a, p, q) && SameTri(a, p, q, x, y, z)
    ensures Gone(ring, a, |ring| - 1, x, y, z)
  {
    RingBefore(t, a, ring, p, q);
    var j: nat :| j < |ring| && ring[j] == p && After(ring, j) == q;
    assert TriAt(ring, a, j, x, y, z);
  }

  lemma CollapsedBackward(t: Across, a: nat, b: nat, ring: seq<nat>, x: nat, y: nat, z: nat)
    requires Collapsible(t, a, b, ring) && CollapsedTri(t, a, b, x, y, z)
    ensures MovedTri(t, a, b, ring, |ring| - 1, x, y, z)
  {
    if Tri(t, x, y, z) {
      if Gone(ring, a, |ring| - 1, x, y, z) {
        var j :| TriAt(ring, a, j, x, y, z) && (j < |ring| - 1 || j == |ring| - 1);
        assert false;
      }
    } else if x == b && y != b && z != b && Tri(t, a, y, z) {
      MovedThere(t, a, b, ring, y, z, x, y, z);
    } else if y == b && x != b && z != b && Tri(t, x, a, z) {
      assert SideOk(t, x, a, z);
      MovedThere(t, a, b, ring, z, x, x, y, z);
    } else {
      assert SideOk(t, x, y, a);
      MovedThere(t, a, b, ring, x, y, x, y, z);
    }
  }

  lemma MovedThere(t: Across, a: nat, b: nat, ring: seq<nat>, p: nat, q: nat, x: nat, y: nat, z: nat)
    requires Collapsible(t, a, b, ring) && Tri(t, a, p, q) && p != b && q != b && SameTri(b, p, q, x, y, z)
    ensures Added(ring, b, |ring| - 1, x, y, z)
  {
    RingBefore(t, a, ring, p, q);
    var j: nat :| j < |ring| && ring[j] == p && After(ring, j) == q;
    assert TriAt(ring, b, j, x, y, z);
  }

  /** Moving all triangles of the ring but the two on the edge is the collapse. */
  lemma MovedIsCollapse(t: Across, a: nat, b: nat, ring: seq<nat>)
    requires Collapsible(t, a, b, ring)
    ensures IsCollapse(t, Moved(t, a, b, ring, |ring| - 1), a, b)
    ensures Triangles(Moved(t, a, b, ring, |ring| - 1))
  {
    hide CollapsedTri, MovedTri, Ring, ClosedAt, Triangles;
    var m := Moved(t, a, b, ring, |ring| - 1);
    MovedChar(t, a, b, ring, |ring| - 1);
    forall x: nat, y: nat, z: nat ensures Tri(m, x, y, z) <==> CollapsedTri(t, a, b, x, y, z) {
      if MovedTri(t, a, b, ring, |ring| - 1, x, y, z) { CollapsedForward(t, a, b, ring, x, y, z); }
      if CollapsedTri(t, a, b, x, y, z) { CollapsedBackward(t, a, b, ring, x, y, z); }
    }
  }

  // ---------- the collapsed surface is closed ----------

  /** The neighbours of `a` next to `b` in its ring are b's neighbours next to `a`. */
  lemma EdgeTris(t: Across, a: nat, b: nat, ring: seq<nat>)
    requires Collapsible(t, a, b, ring)
    ensures Tri(t, a, b, ring[1]) && Tri(t, b, ring[1], a) && Tri(t, ring[1], a, b)
    ensures var l := ring[|ring| - 1]; Tri(t, b, a, l) && Tri(t, a, l, b) && Tri(t, l, b, a)
    ensures Tri(t, a, ring[1], ring[2]) && Tri(t, a, ring[|ring| - 2], ring[|ring| - 1])
    ensures forall i | 0 <= i < |ring| :: ring[i] != a
  {
    var last := |ring| - 1;
    RingApart(t, a, ring);
    OnEdge(t, a, b, ring);
    assert SideOk(t, a, b, ring[1]) && SideOk(t, b, a, ring[last]);
    assert RingStep(t, a, ring, 1) && RingStep(t, a, ring, last - 1);
  }

  /** Where a triangle of `t` at `a` but not on the edge ends up. */
  lemma Kept(t: Across, m: Across, a: nat, b: nat, x: nat, y: nat, z: nat)
    requires Triangles(t) && IsCollapse(t, m, a, b) && a != b && Tri(t, x, y, z)
    ensures x != a && y != a && z != a ==> Tri(m, x, y, z)
    ensures x == a && y != b && z != b ==> Tri(m, b, y, z) && Tri(m, y, z, b) && Tri(m, z, b, y)
  {
    assert SideOk(t, x, y, z);
    if x != a && y != a && z != a {
      assert CollapsedTri(t, a, b, x, y, z);
    }
    if x == a && y != b && z != b {
      assert CollapsedTri(t, a, b, b, y, z) && CollapsedTri(t, a, b, y, z, b) && CollapsedTri(t, a, b, z, b, y);
    }
  }

  /** Away from both ends of the edge the sides of triangles are what they were. */
  lemma SidesAway(t: Across, m: Across, a: nat, b: nat, x: nat, y: nat)
    requires Triangles(t) && IsCollapse(t, m, a, b) && a != b && x != a && x != b && y != a && y != b
    ensures (x, y) in m <==> (x, y) in t
  {
    if (x, y) in t {
      var w := t[(x, y)];
      assert SideOk(t, x, y, w);
      if w == a { Kept(t, m, a, b, a, x, y); } else { Kept(t, m, a, b, x, y, w); }
    }
    if (x, y) in m {
      assert Tri(m, x, y, m[(x, y)]);
    }
  }

  /** Nothing is left at `a`. */
  lemma NothingLeft(t: Across, m: Across, a: nat, b: nat, x: nat)
    requires IsCollapse(t, m, a, b)
    ensures (a, x) !in m && (x, a) !in m
  {
    assert (a, x) in m ==> Tri(m, a, x, m[(a, x)]);
    assert (x, a) in m ==> Tri(m, x, a, m[(x, a)]);
  }

  /** The vertex that stays is still off the border. */
  lemma StaysClosed(t: Across, m: Across, a: nat, b: nat, ring: seq<nat>)
    requires Collapsible(t, a, b, ring) && IsCollapse(t, m, a, b)
    ensures ClosedAt(m, b)
  {
    EdgeTris(t, a, b, ring);
    forall x: nat ensures SharedSpoke(m, b, x) {
      assert SharedSpoke(t, b, x);
      if (b, x) in m {
        var z := m[(b, x)];
        assert Tri(m, b, x, z);
        if Tri(t, b, x, z) { OtherSide(t, m, a, b, ring, x, b, t[(x, b)]); } else { SpokeIn(t, m, a, b, ring, x, z); }
      }
      if (x, b) in m {
        var z := m[(x, b)];
        assert Tri(m, x, b, z);
        if Tri(t, x, b, z) {
          OtherSide(t, m, a, b, ring, b, x, t[(b, x)]);
        } else {
          assert SideOk(t, x, a, z);
          SpokeOut(t, m, a, b, ring, x, z);
        }
      }
    }
  }

  /** The border stays where it was. */
  lemma CollapseKeepsBorder(t: Across, m: Across, a: nat, b: nat, ring: seq<nat>)
    requires Collapsible(t, a, b, ring) && IsCollapse(t, m, a, b)
    ensures forall v: nat {:trigger ClosedAt(m, v)} {:trigger ClosedAt(t, v)} | v != a :: ClosedAt(m, v) <==> ClosedAt(t, v)
    ensures BorderSides(m) == BorderSides(t)
  {
    hide Collapsible, IsCollapse;
    EdgeTris(t, a, b, ring);
    StaysClosed(t, m, a, b, ring);
    CollapsibleEnds(t, a, b, ring);
    forall v: nat, x: nat | v != a && v != b ensures SharedSpoke(m, v, x) <==> SharedSpoke(t, v, x) {
      if x == a || x == b {
        NothingLeft(t, m, a, b, v);
        assert SharedSpoke(t, a, v) && SharedSpoke(t, b, v) && SharedSpoke(m, b, v);
      } else {
        SidesAway(t, m, a, b, v, x);
        SidesAway(t, m, a, b, x, v);
      }
    }
    forall e ensures e in BorderSides(m) <==> e in BorderSides(t) {
      assert e == (e.0, e.1);
      NothingLeft(t, m, a, b, e.0);
      NothingLeft(t, m, a, b, e.1);
      assert SharedSpoke(t, a, e.0) && SharedSpoke(t, a, e.1) && SharedSpoke(t, b, e.0) && SharedSpoke(t, b, e.1);
      assert SharedSpoke(m, b, e.0) && SharedSpoke(m, b, e.1);
      if e.0 != a && e.0 != b && e.1 != a && e.1 != b {
        SidesAway(t, m, a, b, e.0, e.1);
        SidesAway(t, m, a, b, e.1, e.0);
      }
    }
  }

  lemma CollapsibleEnds(t: Across, a: nat, b: nat, ring: seq<nat>)
    requires Collapsible(t, a, b, ring)
    ensures Triangles(t) && ClosedAt(t, a) && ClosedAt(t, b) && a != b
  {
    OnEdge(t, a, b, ring);
  }

  lemma CollapseCloses(t: Across, m: Across, a: nat, b: nat, ring: seq<nat>)
    requires Closed(t) && Collapsible(t, a, b, ring) && IsCollapse(t, m, a, b)
    ensures Closed(m)
  {
    CollapseKeepsBorder(t, m, a, b, ring);
    forall x: nat, y: nat ensures SharedSide(m, x, y) {
      assert SharedSide(t, x, y);
      assert (x, y) !in BorderSides(m);
    }
  }

  /** A side away from `a` keeps both its triangles, moved or not. */
  lemma OtherSide(t: Across, m: Across, a: nat, b: nat, ring: seq<nat>, y: nat, x: nat, w: nat)
    requires Collapsible(t, a, b, ring) && IsCollapse(t, m, a, b) && Tri(t, y, x, w) && x != a && y != a
    ensures (y, x) in m
  {
    EdgeTris(t, a, b, ring);
    assert SideOk(t, y, x, w);
    if w != a {
      Kept(t, m, a, b, y, x, w);
    } else if y != b && x != b {
      Kept(t, m, a, b, a, y, x);
    } else if y == b {
      assert x == ring[1];
      Kept(t, m, a, b, a, ring[1], ring[2]);
      assert Tri(m, b, x, ring[2]);
    } else {
      assert y == ring[|ring| - 1];
      Kept(t, m, a, b, a, ring[|ring| - 2], ring[|ring| - 1]);
      assert Tri(m, y, b, ring[|ring| - 2]);
    }
  }

  /** A spoke moved from `a` to `b` is met by the triangle before it in the ring. */
  lemma SpokeIn(t: Across, m: Across, a: nat, b: nat, ring: seq<nat>, y: nat, z: nat)
    requires Collapsible(t, a, b, ring) && IsCollapse(t, m, a, b) && Tri(t, a, y, z) && y != b && z != b
    ensures (y, b) in m
  {
    EdgeTris(t, a, b, ring);
    RingBefore(t, a, ring, y, z);
    var j: nat :| j < |ring| && ring[j] == y && After(ring, j) == z;
    if j == 1 {
      assert SharedSpoke(t, b, y);
      OtherSide(t, m, a, b, ring, y, b, t[(y, b)]);
    } else {
      assert RingStep(t, a, ring, j - 1);
      Kept(t, m, a, b, a, ring[j - 1], y);
      assert Tri(m, y, b, ring[j - 1]);
    }
  }

  /** ... and by the one after it. */
  lemma SpokeOut(t: Across, m: Across, a: nat, b: nat, ring: seq<nat>, x: nat, z: nat)
    requires Collapsible(t, a, b, ring) && IsCollapse(t, m, a, b) && Tri(t, a, z, x) && x != b && z != b
    ensures (b, x) in m
  {
    EdgeTris(t, a, b, ring);
    RingBefore(t, a, ring, z, x);
    var j: nat :| j < |ring| && ring[j] == z && After(ring, j) == x;
    if j == |ring| - 2 {
      assert SharedSpoke(t, b, x);
      OtherSide(t, m, a, b, ring, b, x, t[(b, x)]);
    } else {
      assert RingStep(t, a, ring, j + 1);
      Kept(t, m, a, b, a, x, After(ring, j + 1));
      assert Tri(m, b, x, After(ring, j + 1));
    }
  }

  // ---------- the collapsed surface is a manifold ----------

  /** Positions in a ring are determined by the triangle behind them. */
  lemma RingPosition(t: Across, v: nat, r: seq<nat>, i: nat, y: nat)
    requires Ring(t, v, r) && i < |r| && Tri(t, v, r[i], y)
    ensures After(r, i) == y
  {
    assert RingStep(t, v, r, i);
  }

  /** A vertex not next to `a` keeps its ring. */
  lemma RingElsewhere(t: Across, m: Across, a: nat, b: nat, ring: seq<nat>, u: nat, r: seq<nat>)
    requires Collapsible(t, a, b, ring) && IsCollapse(t, m, a, b)
    requires u != a && u != b && (a, u) !in t && Ring(t, u, r)
    ensures Ring(m, u, r)
  {
    EdgeTris(t, a, b, ring);
    assert SharedSpoke(t, a, u);
    forall i | 0 <= i < |r| ensures RingStep(m, u, r, i) {
      var k := if i + 1 < |r| then i + 1 else 0;
      assert RingStep(t, u, r, i) && RingStep(t, u, r, k);
      Kept(t, m, a, b, u, r[i], After(r, i));
    }
    forall x: nat ensures Around(m, u, r, x) {
      assert Around(t, u, r, x);
      if (u, x) in m {
        var w := m[(u, x)];
        assert Tri(m, u, x, w) && CollapsedTri(t, a, b, u, x, w);
        assert SideOk(t, u, x, a);
      }
    }
  }

  /** What is known of the ring of a neighbour `u` of `a`, read from `a`. */
  lemma LinkRing(t: Across, m: Across, a: nat, b: nat, ring: seq<nat>, u: nat, r: seq<nat>)
    requires Collapsible(t, a, b, ring) && IsCollapse(t, m, a, b)
    requires u != b && (a, u) in t && Ring(t, u, r) && r[0] == a
    ensures |r| >= 2 && Tri(t, u, a, r[1]) && Tri(t, u, r[|r| - 1], a) && u != a
    ensures forall i | 1 <= i < |r| - 1 :: Tri(m, u, r[i], r[i + 1])
    ensures forall x: nat | (u, x) in m :: x == b || x in r[1..]
  {
    EdgeTris(t, a, b, ring);
    RingApart(t, u, r);
    assert RingStep(t, u, r, 0) && RingStep(t, u, r, |r| - 1);
    assert SideOk(t, u, a, After(r, 0));
    forall i | 1 <= i < |r| - 1 ensures Tri(m, u, r[i], r[i + 1]) {
      assert RingStep(t, u, r, i);
      Kept(t, m, a, b, u, r[i], r[i + 1]);
    }
    forall x: nat | (u, x) in m ensures x == b || x in r[1..] {
      var w := m[(u, x)];
      assert Tri(m, u, x, w) && CollapsedTri(t, a, b, u, x, w);
      if x != b {
        assert Around(t, u, r, x);
        var i: nat :| i < |r| && r[i] == x;
        assert r[1..][i - 1] == x;
      }
    }
  }

  /** A neighbour of both ends loses `a` from its ring. */
  lemma RingShrinks(t: Across, m: Across, a: nat, b: nat, ring: seq<nat>, u: nat, r: seq<nat>)
    requires Collapsible(t, a, b, ring) && IsCollapse(t, m, a, b)
    requires u != b && (a, u) in t && (u, b) in t && Ring(t, u, r) && r[0] == a
    ensures Ring(m, u, r[1..])
  {
    LinkRing(t, m, a, b, ring, u, r);
    ShrinkSeam(t, m, a, b, ring, u, r);
    var s := r[1..];
    assert Around(t, u, r, b);
    var k: nat :| k < |r| && r[k] == b;
    assert k != 0 && s[k - 1] == b by { EdgeTris(t, a, b, ring); OnEdge(t, a, b, ring); }
    forall i | 0 <= i < |s| ensures RingStep(m, u, s, i) {
      if i < |s| - 1 { assert Tri(m, u, r[i + 1], r[i + 2]); }
    }
    forall x: nat ensures Around(m, u, s, x) { }
  }

  /** Where `a` was, the ring closes up. */
  lemma ShrinkSeam(t: Across, m: Across, a: nat, b: nat, ring: seq<nat>, u: nat, r: seq<nat>)
    requires Collapsible(t, a, b, ring) && IsCollapse(t, m, a, b)
    requires u != b && (a, u) in t && (u, b) in t && Ring(t, u, r) && r[0] == a && |r| >= 2
    requires Tri(t, u, a, r[1]) && Tri(t, u, r[|r| - 1], a)
    ensures Tri(m, u, r[|r| - 1], r[1])
  {
    EdgeTris(t, a, b, ring);
    assert SharedSpoke(t, b, u);
    assert Around(t, a, ring, u);
    var j: nat :| j < |ring| && ring[j] == u;
    assert j == 1 || j == |ring| - 1;
    assert SideOk(t, u, r[|r| - 1], a) && SideOk(t, u, a, r[1]);
    if j == 1 {
      Kept(t, m, a, b, a, u, r[|r| - 1]);
    } else {
      assert Tri(t, a, r[1], u);
      LastSeam(t, a, b, ring, u, r);
      Kept(t, m, a, b, a, r[1], u);
    }
  }

  lemma LastSeam(t: Across, a: nat, b: nat, ring: seq<nat>, u: nat, r: seq<nat>)
    requires Collapsible(t, a, b, ring) && u == ring[|ring| - 1]
    requires Ring(t, u, r) && r[0] == a && |r| >= 2
    ensures r[|r| - 1] == b && (Tri(t, a, r[1], u) ==> r[1] == ring[|ring| - 2] != b)
  {
    EdgeTris(t, a, b, ring);
    RingBefore(t, u, r, b, a);
    if Tri(t, a, r[1], u) {
      RingBefore(t, a, ring, r[1], u);
    }
  }

  /** A neighbour of `a` alone gets `b` in its place. */
  lemma RingReplaces(t: Across, m: Across, a: nat, b: nat, ring: seq<nat>, u: nat, r: seq<nat>)
    requires Collapsible(t, a, b, ring) && IsCollapse(t, m, a, b)
    requires u != b && (a, u) in t && (u, b) !in t && Ring(t, u, r) && r[0] == a
    ensures Ring(m, u, [b] + r[1..])
  {
    LinkRing(t, m, a, b, ring, u, r);
    var s, last := [b] + r[1..], |r| - 1;
    forall i | 0 <= i < |r| ensures r[i] != b { assert RingStep(t, u, r, i); }
    assert SideOk(t, u, a, r[1]) && SideOk(t, u, r[last], a);
    EdgeTris(t, a, b, ring);
    Kept(t, m, a, b, a, r[1], u);
    Kept(t, m, a, b, a, u, r[last]);
    assert Distinct(s) by {
      forall i, j | 0 <= i < |s| && 0 <= j < |s| && s[i] == s[j] ensures i == j {
        assert i > 0 ==> s[i] == r[i];
        assert j > 0 ==> s[j] == r[j];
      }
    }
    forall i | 0 <= i < |s| ensures RingStep(m, u, s, i) {
      if 1 <= i < last { assert Tri(m, u, r[i], r[i + 1]); }
    }
    forall x: nat ensures Around(m, u, s, x) { }
  }

  /** The ring of `b`: what is left of a's ring, then what is left of b's. */
  lemma RingSplices(t: Across, m: Across, a: nat, b: nat, ring: seq<nat>, r: seq<nat>)
    requires Collapsible(t, a, b, ring) && IsCollapse(t, m, a, b) && Ring(t, b, r) && r[0] == a
    ensures |r| >= 3 && Ring(m, b, ring[1..] + r[2..|r| - 1])
  {
    SpliceEnds(t, a, b, ring, r);
    var s, last, n := ring[1..] + r[2..|r| - 1], |ring| - 1, |r|;
    SpliceDistinct(t, a, b, ring, r);
    forall i | 0 <= i < |s| ensures RingStep(m, b, s, i) {
      EdgeTris(t, a, b, ring);
      if i < last - 1 {
        assert RingStep(t, a, ring, i + 1);
        Kept(t, m, a, b, a, ring[i + 1], ring[i + 2]);
      } else {
        var q := i - last + 2;
        assert s[i] == r[q] && After(s, i) == r[q + 1];
        assert RingStep(t, b, r, q);
        Kept(t, m, a, b, b, r[q], r[q + 1]);
      }
    }
    forall x: nat ensures Around(m, b, s, x) {
      SpliceAround(t, m, a, b, ring, r, x);
    }
  }

  lemma SpliceEnds(t: Across, a: nat, b: nat, ring: seq<nat>, r: seq<nat>)
    requires Collapsible(t, a, b, ring) && Ring(t, b, r) && r[0] == a
    ensures |r| >= 3 && r[1] == ring[|ring| - 1] && r[|r| - 1] == ring[1]
  {
    EdgeTris(t, a, b, ring);
    RingPosition(t, b, r, 0, ring[|ring| - 1]);
    RingBefore(t, b, r, ring[1], a);
  }

  lemma SpliceDistinct(t: Across, a: nat, b: nat, ring: seq<nat>, r: seq<nat>)
    requires Collapsible(t, a, b, ring) && Ring(t, b, r) && r[0] == a
    requires |r| >= 3 && r[1] == ring[|ring| - 1] && r[|r| - 1] == ring[1]
    ensures Distinct(ring[1..] + r[2..|r| - 1])
  {
    var s, last := ring[1..] + r[2..|r| - 1], |ring| - 1;
    forall i, j | 0 <= i < last <= j < |s| ensures s[i] != s[j] {
      assert s[i] == ring[i + 1] && s[j] == r[j - last + 2];
      assert RingStep(t, b, r, j - last + 2);
    }
  }

  lemma SpliceAround(t: Across, m: Across, a: nat, b: nat, ring: seq<nat>, r: seq<nat>, x: nat)
    requires Collapsible(t, a, b, ring) && IsCollapse(t, m, a, b) && Ring(t, b, r) && r[0] == a
    requires |r| >= 3 && r[1] == ring[|ring| - 1] && r[|r| - 1] == ring[1]
    ensures Around(m, b, ring[1..] + r[2..|r| - 1], x)
  {
    if (b, x) in m {
      EdgeTris(t, a, b, ring);
      var s, w := ring[1..] + r[2..|r| - 1], m[(b, x)];
      assert Tri(m, b, x, w) && CollapsedTri(t, a, b, b, x, w);
      if Tri(t, b, x, w) {
        RingBefore(t, b, r, x, w);
        var q: nat :| q < |r| && r[q] == x && After(r, q) == w;
        if q == 1 { assert s[|ring| - 2] == x; } else { assert s[|ring| - 1 + q - 2] == x; }
      } else {
        RingBefore(t, a, ring, x, w);
        var j: nat :| j < |ring| && ring[j] == x && After(ring, j) == w;
        assert s[j - 1] == x;
      }
    }
  }

  /** An allowed collapse of a surface is a surface again, with the same border and on the same vertices but for `a`. */
  lemma CollapseSurface(t: Across, m: Across, a: nat, b: nat, ring: seq<nat>)
    requires Surface(t) && Collapsible(t, a, b, ring) && IsCollapse(t, m, a, b) && Triangles(m)
    ensures Surface(m) && BorderSides(m) == BorderSides(t)
    ensures forall v: nat {:trigger Used(m, v)} {:trigger Used(t, v)} :: Used(m, v) <==> Used(t, v) && v != a
  {
    hide Collapsible, IsCollapse, Ring, ClosedAt;
    CollapseKeepsBorder(t, m, a, b, ring);
    forall v: nat ensures Used(m, v) <==> Used(t, v) && v != a {
      if Used(m, v) { UsedBefore(t, m, a, b, ring, v); }
      if Used(t, v) && v != a { UsedAfter(t, m, a, b, ring, v); }
    }
    forall v: nat | Used(m, v) && ClosedAt(m, v) ensures HasRing(m, v) {
      UsedBefore(t, m, a, b, ring, v);
      CollapseHasRing(t, m, a, b, ring, v);
    }
  }

  /** ... and of a manifold, a manifold. */
  lemma CollapseManifold(t: Across, m: Across, a: nat, b: nat, ring: seq<nat>)
    requires Manifold(t) && Collapsible(t, a, b, ring) && IsCollapse(t, m, a, b) && Triangles(m)
    ensures Manifold(m)
    ensures forall v: nat {:trigger Used(m, v)} {:trigger Used(t, v)} :: Used(m, v) <==> Used(t, v) && v != a
  {
    ManifoldIsClosed(t);
    ManifoldIsClosed(m);
    CollapseSurface(t, m, a, b, ring);
    CollapseCloses(t, m, a, b, ring);
  }

  lemma UsedAfter(t: Across, m: Across, a: nat, b: nat, ring: seq<nat>, v: nat)
    requires Collapsible(t, a, b, ring) && IsCollapse(t, m, a, b) && Used(t, v) && v != a
    ensures Used(m, v)
  {
    EdgeTris(t, a, b, ring);
    if v == b {
      Kept(t, m, a, b, a, ring[1], ring[2]);
      assert Tri(m, b, ring[1], ring[2]);
    } else if (a, v) in t {
      assert Around(t, a, ring, v);
      var j: nat :| j < |ring| && ring[j] == v;
      if j < |ring| - 1 {
        assert RingStep(t, a, ring, j);
        Kept(t, m, a, b, a, v, ring[j + 1]);
        assert Tri(m, v, ring[j + 1], b);
      } else {
        Kept(t, m, a, b, a, ring[j - 1], v);
        assert Tri(m, v, b, ring[j - 1]);
      }
    } else {
      var x: nat :| (v, x) in t;
      var w := t[(v, x)];
      assert SideOk(t, v, x, w) && SharedSpoke(t, a, v);
      Kept(t, m, a, b, v, x, w);
      assert Tri(m, v, x, w);
    }
  }

  lemma CollapseHasRing(t: Across, m: Across, a: nat, b: nat, ring: seq<nat>, v: nat)
    requires Surface(t) && Collapsible(t, a, b, ring) && IsCollapse(t, m, a, b) && Used(t, v) && ClosedAt(t, v) && v != a
    ensures HasRing(m, v)
  {
    EdgeTris(t, a, b, ring);
    assert HasRing(t, v);
    if v == b {
      var r := RingFrom(t, b, a);
      RingSplices(t, m, a, b, ring, r);
    } else if (a, v) in t {
      assert SharedSpoke(t, a, v);
      var r := RingFrom(t, v, a);
      if (v, b) in t { RingShrinks(t, m, a, b, ring, v, r); } else { RingReplaces(t, m, a, b, ring, v, r); }
    } else {
      var r :| Ring(t, v, r);
      RingElsewhere(t, m, a, b, ring, v, r);
    }
  }

  lemma UsedBefore(t: Across, m: Across, a: nat, b: nat, ring: seq<nat>, v: nat)
    requires Collapsible(t, a, b, ring) && IsCollapse(t, m, a, b) && Used(m, v)
    ensures v != a && Used(t, v)
  {
    EdgeTris(t, a, b, ring);
    var x: nat :| (v, x) in m;
    var w := m[(v, x)];
    assert Tri(m, v, x, w) && CollapsedTri(t, a, b, v, x, w);
    if v == b { assert (b, a) in t; } else if Tri(t, v, x, w) || Tri(t, v, x, a) { assert (v, x) in t; } else { assert (v, a) in t; }
  }

  // ---------- the Euler characteristic ----------

  ghost function VerticesOf(t: Across): (s: set<nat>) {
    set e | e in t :: e.0
  }

  /** Twice vertices minus edges plus faces of a surface with `n` faces: its edges are the pairs of half-edges and the
      sides on the border. */
  ghost function TwiceEuler(t: Across, n: nat): (c: int) {
    2 * |VerticesOf(t)| - |t| - |BorderSides(t)| + 2 * n
  }

  lemma VerticesUsed(t: Across)
    ensures forall v: nat {:trigger v in VerticesOf(t)} :: v in VerticesOf(t) <==> Used(t, v)
  {
    forall v: nat ensures v in VerticesOf(t) <==> Used(t, v) {
      if v in VerticesOf(t) { var e :| e in t && e.0 == v; assert (v, e.1) == e; }
      if Used(t, v) { var x: nat :| (v, x) in t; assert (v, x).0 in VerticesOf(t); }
    }
  }

  /** Collapsing an edge takes away one vertex, three edges and two faces, so the Euler characteristic stays. */
  lemma CollapseKeepsEuler(t: Across, m: Across, a: nat, b: nat, ring: seq<nat>, n: nat)
    requires Surface(t) && Collapsible(t, a, b, ring) && IsCollapse(t, m, a, b) && Triangles(m)
    requires n >= 2 && |t| == 3 * n && |m| == 3 * (n - 2)
    ensures TwiceEuler(m, n - 2) == TwiceEuler(t, n)
  {
    CollapseSurface(t, m, a, b, ring);
    EdgeTris(t, a, b, ring);
    hide Collapsible, IsCollapse, Surface, Triangles;
    VerticesUsed(t);
    VerticesUsed(m);
    assert (a, b) in t;
    assert Used(t, a);
    assert VerticesOf(t) == VerticesOf(m) + {a};
    assert a !in VerticesOf(m);
  }
}
