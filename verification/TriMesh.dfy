/** Triangle meshes as half-edge maps: every face owns its three directed sides, and every vertex counts the
    half-edges at it that have no partner. */
module TriMesh {
  import opened Counting
  import opened Paths
  import opened MeshTopology
  import opened Options

  // ---------- vertices ----------

  const WORD: nat := 0x1_0000_0000
  const VALID: nat := 0x8000_0000

  /** A vertex names one of its faces and keeps one word: the top bit says whether that name is good, the other 31
      bits count the half-edges at the vertex without a partner. */
  datatype Vertex = Vertex(face: nat, open: nat)

  predicate IsValid(v: Vertex) {
    v.open >= VALID
  }

  function Count(v: Vertex): (n: int) {
    if v.open >= VALID then v.open - VALID else v.open
  }

  predicate OnBorder(v: Vertex) {
    v.open != VALID
  }

  function Increment(v: Vertex): (r: Vertex) {
    v.(open := (v.open + 1) % WORD)
  }

  function Decrement(v: Vertex): (r: Vertex) {
    v.(open := (v.open + WORD - 1) % WORD)
  }

  /** `face( f )`: sets the name and the bit. */
  function Name(v: Vertex, f: nat): (r: Vertex) {
    Vertex(f, if v.open >= VALID then v.open else v.open + VALID)
  }

  function Unname(v: Vertex): (r: Vertex) {
    v.(open := if v.open >= VALID then v.open - VALID else v.open)
  }

  // ---------- counting half-edges ----------

  /** Half-edges at `v` whose inverse is missing. */
  ghost function Unpaired(es: set<Edge>, v: nat): (s: set<Edge>) {
    set e | e in es && (e.0 == v || e.1 == v) && !Partnered(es, e)
  }

  ghost predicate Partnered(es: set<Edge>, e: Edge) {
    (e.1, e.0) in es
  }

  ghost predicate HalfEdges(es: set<Edge>, size: nat) {
    forall e | e in es :: e.0 < size && e.1 < size && e.0 != e.1
  }

  /** The word of vertex `v` counts right. */
  ghost predicate CountOk(vs: seq<Vertex>, es: set<Edge>, v: nat) {
    v < |vs| && vs[v].open < WORD && Count(vs[v]) == |Unpaired(es, v)|
  }

  ghost predicate CountsOk(vs: seq<Vertex>, es: set<Edge>) {
    && HalfEdges(es, |vs|) && |vs| <= VALID
    && forall v {:trigger CountOk(vs, es, v)} | 0 <= v < |vs| :: CountOk(vs, es, v)
  }

  ghost function Others(s: set<Edge>, v: nat): (r: set<nat>) {
    set e | e in s :: OtherEnd(e, v)
  }

  ghost function OtherEnd(e: Edge, v: nat): (x: nat) {
    if e.0 == v then e.1 else e.0
  }

  lemma {:induction false} OthersSize(s: set<Edge>, v: nat)
    requires forall e, f | e in s && f in s && OtherEnd(e, v) == OtherEnd(f, v) :: e == f
    ensures |Others(s, v)| == |s|
    decreases |s|
  {
    if s == {} {
      assert Others(s, v) == {};
    } else {
      var x :| x in s;
      OthersSize(s - {x}, v);
      assert Others(s, v) == Others(s - {x}, v) + {OtherEnd(x, v)};
    }
  }

  /** Fewer than `size` half-edges at a vertex can be unpaired, so the counter never reaches the top bit. */
  lemma UnpairedBound(es: set<Edge>, size: nat, v: nat)
    requires HalfEdges(es, size) && v < size
    ensures |Unpaired(es, v)| < size
  {
    var s := Unpaired(es, v);
    OthersSize(s, v);
    SubsetSize(Others(s, v), Below(size) - {v});
  }

  /** What adding half-edge (x, y) does to the unpaired ones at `v`. */
  lemma UnpairedAdd(es: set<Edge>, x: nat, y: nat, v: nat)
    requires (x, y) !in es && x != y
    ensures |Unpaired(es + {(x, y)}, v)| ==
      if v != x && v != y then |Unpaired(es, v)|
      else if (y, x) in es then |Unpaired(es, v)| - 1 else |Unpaired(es, v)| + 1
  {
    if v != x && v != y {
      UnpairedElsewhere(es, x, y, v);
    } else if (y, x) in es {
      UnpairedMeets(es, x, y, v);
    } else {
      UnpairedAlone(es, x, y, v);
    }
  }

  lemma UnpairedElsewhere(es: set<Edge>, x: nat, y: nat, v: nat)
    requires v != x && v != y
    ensures Unpaired(es + {(x, y)}, v) == Unpaired(es, v)
  {
    var fs := es + {(x, y)};
    forall e ensures e in Unpaired(fs, v) <==> e in Unpaired(es, v) {
      assert e in fs <==> e in es || e == (x, y);
    }
  }

  lemma UnpairedMeets(es: set<Edge>, x: nat, y: nat, v: nat)
    requires (x, y) !in es && x != y && (v == x || v == y) && (y, x) in es
    ensures |Unpaired(es + {(x, y)}, v)| == |Unpaired(es, v)| - 1
  {
    var fs := es + {(x, y)};
    forall e ensures e in Unpaired(es, v) <==> e in Unpaired(fs, v) || e == (y, x) {
      assert e in fs <==> e in es || e == (x, y);
      assert Partnered(fs, e) <==> Partnered(es, e) || e == (y, x);
    }
    assert Unpaired(es, v) == Unpaired(fs, v) + {(y, x)};
  }

  lemma UnpairedAlone(es: set<Edge>, x: nat, y: nat, v: nat)
    requires (x, y) !in es && x != y && (v == x || v == y) && (y, x) !in es
    ensures |Unpaired(es + {(x, y)}, v)| == |Unpaired(es, v)| + 1
  {
    var fs := es + {(x, y)};
    forall e ensures e in Unpaired(fs, v) <==> e in Unpaired(es, v) || e == (x, y) {
      assert e in fs <==> e in es || e == (x, y);
      assert e in es ==> (Partnered(fs, e) <==> Partnered(es, e));
    }
    assert Unpaired(fs, v) == Unpaired(es, v) + {(x, y)};
  }

  /** The counters after `add_edge`: down at both ends if the inverse is there, up if not. */
  function Recount(vs: seq<Vertex>, x: nat, y: nat, paired: bool): (r: seq<Vertex>)
    requires x < |vs| && y < |vs|
  {
    if paired then var r := vs[x := Decrement(vs[x])]; r[y := Decrement(r[y])]
    else var r := vs[x := Increment(vs[x])]; r[y := Increment(r[y])]
  }

  /** Away from the ends of its range the counter moves by one and leaves name and top bit alone. */
  lemma CounterMoves(v: Vertex)
    requires v.open < WORD
    ensures Increment(v).face == v.face && Decrement(v).face == v.face
    ensures Count(v) + 1 < VALID ==> Count(Increment(v)) == Count(v) + 1 && IsValid(Increment(v)) == IsValid(v) && Increment(v).open < WORD
    ensures Count(v) > 0 ==> Count(Decrement(v)) == Count(v) - 1 && IsValid(Decrement(v)) == IsValid(v) && Decrement(v).open < WORD
  {
  }

  lemma AddCounts(vs: seq<Vertex>, es: set<Edge>, x: nat, y: nat, paired: bool)
    requires CountsOk(vs, es) && x < |vs| && y < |vs| && x != y && (x, y) !in es && (paired <==> (y, x) in es)
    ensures CountsOk(Recount(vs, x, y, paired), es + {(x, y)})
    ensures SameNames(vs, Recount(vs, x, y, paired))
  {
    hide Unpaired, Increment, Decrement, Count, IsValid;
    var r, fs := Recount(vs, x, y, paired), es + {(x, y)};
    forall v | 0 <= v < |vs| ensures CountOk(r, fs, v) && r[v].face == vs[v].face && IsValid(r[v]) == IsValid(vs[v]) {
      assert CountOk(vs, es, v);
      UnpairedAdd(es, x, y, v);
      UnpairedBound(es, |vs|, v);
      UnpairedBound(fs, |vs|, v);
      CounterMoves(vs[v]);
    }
  }

  /** ... and `remove_edge` counts the other way round. */
  lemma RemoveCounts(vs: seq<Vertex>, es: set<Edge>, x: nat, y: nat, single: bool)
    requires CountsOk(vs, es) && x < |vs| && y < |vs| && x != y && (x, y) in es && (single <==> (y, x) !in es)
    ensures CountsOk(Recount(vs, x, y, single), es - {(x, y)})
    ensures SameNames(vs, Recount(vs, x, y, single))
  {
    hide Unpaired, Increment, Decrement, Count, IsValid;
    var r, fs := Recount(vs, x, y, single), es - {(x, y)};
    assert fs + {(x, y)} == es;
    forall v | 0 <= v < |vs| ensures CountOk(r, fs, v) && r[v].face == vs[v].face && IsValid(r[v]) == IsValid(vs[v]) {
      assert CountOk(vs, es, v);
      UnpairedAdd(fs, x, y, v);
      UnpairedBound(es, |vs|, v);
      UnpairedBound(fs, |vs|, v);
      CounterMoves(vs[v]);
    }
  }

  /** Names and their bits are as before. */
  ghost predicate SameNames(vs: seq<Vertex>, r: seq<Vertex>) {
    |r| == |vs| && forall v | 0 <= v < |vs| :: r[v].face == vs[v].face && IsValid(r[v]) == IsValid(vs[v])
  }

  lemma NameCounts(vs: seq<Vertex>, es: set<Edge>, x: nat, f: nat)
    requires CountsOk(vs, es) && x < |vs|
    ensures CountsOk(vs[x := Name(vs[x], f)], es) && CountsOk(vs[x := Unname(vs[x])], es)
  {
    var named, unnamed := vs[x := Name(vs[x], f)], vs[x := Unname(vs[x])];
    forall v | 0 <= v < |vs| ensures CountOk(named, es, v) && CountOk(unnamed, es, v) {
      assert CountOk(vs, es, v);
    }
  }

  // ---------- faces and half-edges ----------

  datatype Face = Face(v0: nat, v1: nat, v2: nat)

  /** The face a half-edge belongs to and the vertex opposite it. */
  datatype HalfEdge = HalfEdge(face: nat, vertex: nat)

  /** x, y, z is `f` read from one of its corners. */
  ghost predicate Corner(f: Face, x: nat, y: nat, z: nat) {
    f == Face(x, y, z) || f == Face(y, z, x) || f == Face(z, x, y)
  }

  ghost predicate Has(f: Face, v: nat) {
    f.v0 == v || f.v1 == v || f.v2 == v
  }

  ghost predicate ProperFace(f: Face, size: nat) {
    && f.v0 < size && f.v1 < size && f.v2 < size
    && f.v0 != f.v1 && f.v1 != f.v2 && f.v2 != f.v0
  }

  ghost predicate SidesOk(edges: map<Edge, HalfEdge>, id: nat, f: Face) {
    HalfEdgeOk(edges, id, f.v0, f.v1, f.v2) && HalfEdgeOk(edges, id, f.v1, f.v2, f.v0) && HalfEdgeOk(edges, id, f.v2, f.v0, f.v1)
  }

  ghost predicate HalfEdgeOk(edges: map<Edge, HalfEdge>, id: nat, x: nat, y: nat, z: nat) {
    (x, y) in edges && edges[(x, y)] == HalfEdge(id, z)
  }

  ghost predicate OwnerOk(edges: map<Edge, HalfEdge>, faces: map<nat, Face>, e: Edge) {
    e in edges ==> edges[e].face in faces && Corner(faces[edges[e].face], e.0, e.1, edges[e].vertex)
  }

  /** The half-edges are exactly the directed sides of the faces, each with its face and opposite vertex. */
  ghost predicate SidesOfFaces(edges: map<Edge, HalfEdge>, faces: map<nat, Face>, size: nat) {
    && (forall id {:trigger faces[id]} | id in faces :: ProperFace(faces[id], size) && SidesOk(edges, id, faces[id]))
    && (forall e :: OwnerOk(edges, faces, e))
  }

  /** A good name is the name of a live face at the vertex. */
  ghost predicate NameOk(vs: seq<Vertex>, faces: map<nat, Face>, v: nat) {
    v < |vs| && (IsValid(vs[v]) ==> vs[v].face in faces && Has(faces[vs[v].face], v))
  }

  ghost predicate NamesOk(vs: seq<Vertex>, faces: map<nat, Face>) {
    forall v {:trigger NameOk(vs, faces, v)} | 0 <= v < |vs| :: NameOk(vs, faces, v)
  }

  /** The representation invariant of a mesh. */
  ghost predicate MeshOk(vs: seq<Vertex>, edges: map<Edge, HalfEdge>, faces: map<nat, Face>) {
    && SidesOfFaces(edges, faces, |vs|)
    && CountsOk(vs, edges.Keys)
    && NamesOk(vs, faces)
  }

  /** The half-edges with those of one more face. */
  function WithSides(edges: map<Edge, HalfEdge>, id: nat, x: nat, y: nat, z: nat): (r: map<Edge, HalfEdge>) {
    edges[(x, y) := HalfEdge(id, z)][(y, z) := HalfEdge(id, x)][(z, x) := HalfEdge(id, y)]
  }

  function WithoutSides(edges: map<Edge, HalfEdge>, x: nat, y: nat, z: nat): (r: map<Edge, HalfEdge>) {
    edges - {(x, y), (y, z), (z, x)}
  }

  lemma AddSides(edges: map<Edge, HalfEdge>, faces: map<nat, Face>, size: nat, id: nat, x: nat, y: nat, z: nat)
    requires SidesOfFaces(edges, faces, size) && id !in faces && ProperFace(Face(x, y, z), size)
    requires (x, y) !in edges && (y, z) !in edges && (z, x) !in edges
    ensures SidesOfFaces(WithSides(edges, id, x, y, z), faces[id := Face(x, y, z)], size)
  {
    var edges', faces' := WithSides(edges, id, x, y, z), faces[id := Face(x, y, z)];
    forall i | i in faces' ensures ProperFace(faces'[i], size) && SidesOk(edges', i, faces'[i]) {
      if i != id { assert faces'[i] == faces[i]; }
    }
    forall e ensures OwnerOk(edges', faces', e) {
      assert OwnerOk(edges, faces, e);
    }
  }

  lemma RemoveSides(edges: map<Edge, HalfEdge>, faces: map<nat, Face>, size: nat, id: nat)
    requires SidesOfFaces(edges, faces, size) && id in faces
    ensures var f := faces[id]; SidesOfFaces(WithoutSides(edges, f.v0, f.v1, f.v2), faces - {id}, size)
  {
    var f := faces[id];
    var edges', faces' := WithoutSides(edges, f.v0, f.v1, f.v2), faces - {id};
    forall i | i in faces' ensures ProperFace(faces'[i], size) && SidesOk(edges', i, faces'[i]) {
      assert faces'[i] == faces[i];
      assert SidesOk(edges, id, f);
    }
    forall e ensures OwnerOk(edges', faces', e) {
      assert OwnerOk(edges, faces, e);
    }
  }

  /** Three half-edges to every face. */
  lemma {:induction false} ThreeSides(edges: map<Edge, HalfEdge>, faces: map<nat, Face>, size: nat)
    requires SidesOfFaces(edges, faces, size)
    ensures |edges| == 3 * |faces|
    decreases |faces|
  {
    if faces == map[] {
      forall e ensures e !in edges { assert OwnerOk(edges, faces, e); }
      assert edges == map[];
    } else {
      var id :| id in faces;
      var f := faces[id];
      RemoveSides(edges, faces, size, id);
      var edges', faces' := WithoutSides(edges, f.v0, f.v1, f.v2), faces - {id};
      assert faces'.Keys == faces.Keys - {id};
      SidesTaken(edges, faces, size, id);
      ThreeSides(edges', faces', size);
    }
  }

  lemma SidesTaken(edges: map<Edge, HalfEdge>, faces: map<nat, Face>, size: nat, id: nat)
    requires SidesOfFaces(edges, faces, size) && id in faces
    ensures var f := faces[id]; |WithoutSides(edges, f.v0, f.v1, f.v2)| == |edges| - 3
  {
    var f := faces[id];
    assert SidesOk(edges, id, f) && ProperFace(f, size);
    var sides := {(f.v0, f.v1), (f.v1, f.v2), (f.v2, f.v0)};
    assert WithoutSides(edges, f.v0, f.v1, f.v2).Keys == edges.Keys - sides;
    assert sides <= edges.Keys && |sides| == 3;
  }

  // ---------- the surface ----------

  /** The mesh as a map from directed edges to opposite vertices. */
  ghost function AcrossOf(edges: map<Edge, HalfEdge>): (t: Across) {
    map e | e in edges :: edges[e].vertex
  }

  lemma SurfaceOfMesh(edges: map<Edge, HalfEdge>, faces: map<nat, Face>, size: nat)
    requires SidesOfFaces(edges, faces, size)
    ensures Triangles(AcrossOf(edges))
    ensures forall e | e in edges :: e.0 < size && e.1 < size && edges[e].vertex < size && edges[e].face in faces
    ensures HalfEdges(edges.Keys, size)
  {
    var t := AcrossOf(edges);
    forall x: nat, y: nat, z: nat ensures SideOk(t, x, y, z) {
      assert OwnerOk(edges, faces, (x, y));
    }
    forall e | e in edges ensures e.0 < size && e.1 < size && edges[e].vertex < size && edges[e].face in faces && e.0 != e.1 {
      assert OwnerOk(edges, faces, e);
    }
  }

  /** The face of half-edge (x, y), as a triangle of the surface. */
  lemma FaceOfEdge(edges: map<Edge, HalfEdge>, faces: map<nat, Face>, size: nat, x: nat, y: nat)
    requires SidesOfFaces(edges, faces, size) && (x, y) in edges
    ensures edges[(x, y)].face in faces
    ensures var f, z := faces[edges[(x, y)].face], edges[(x, y)].vertex;
      && ProperFace(f, size) && Corner(f, x, y, z) && (forall v :: Has(f, v) <==> v == x || v == y || v == z)
      && AcrossOf(WithoutSides(edges, f.v0, f.v1, f.v2)) == WithoutTri(AcrossOf(edges), x, y, z)
  {
    assert OwnerOk(edges, faces, (x, y));
  }

  lemma AcrossWith(edges: map<Edge, HalfEdge>, id: nat, x: nat, y: nat, z: nat)
    ensures AcrossOf(WithSides(edges, id, x, y, z)) == WithTri(AcrossOf(edges), x, y, z)
  {
  }

  lemma SurfaceSize(vs: seq<Vertex>, edges: map<Edge, HalfEdge>, faces: map<nat, Face>)
    requires MeshOk(vs, edges, faces)
    ensures |AcrossOf(edges)| == 3 * |faces|
  {
    ThreeSides(edges, faces, |vs|);
    assert AcrossOf(edges).Keys == edges.Keys;
  }

  /** Every vertex with a half-edge leaving it has a good name. */
  ghost predicate AllNamed(vs: seq<Vertex>, edges: map<Edge, HalfEdge>) {
    forall e | e in edges :: e.0 < |vs| && IsValid(vs[e.0])
  }

  /** The word of a vertex says whether it is named and all its sides are shared. */
  lemma OffBorder(vs: seq<Vertex>, edges: map<Edge, HalfEdge>, faces: map<nat, Face>, v: nat)
    requires MeshOk(vs, edges, faces) && v < |vs|
    ensures !OnBorder(vs[v]) <==> IsValid(vs[v]) && ClosedAt(AcrossOf(edges), v)
  {
    var t, es := AcrossOf(edges), edges.Keys;
    assert CountOk(vs, es, v);
    if ClosedAt(t, v) {
      forall f | f in es && (f.0 == v || f.1 == v) ensures Partnered(es, f) {
        assert f == (f.0, f.1);
        assert SharedSpoke(t, v, f.0) && SharedSpoke(t, v, f.1);
      }
      assert Unpaired(es, v) == {};
    }
    if Unpaired(es, v) == {} {
      forall x: nat ensures SharedSpoke(t, v, x) {
        assert (v, x) in es ==> (v, x) !in Unpaired(es, v);
        assert (x, v) in es ==> (x, v) !in Unpaired(es, v);
      }
    }
  }

  /** On a closed mesh every vertex in use is off the border. */
  lemma ClosedOffBorder(vs: seq<Vertex>, edges: map<Edge, HalfEdge>, faces: map<nat, Face>, e: Edge)
    requires MeshOk(vs, edges, faces) && Closed(AcrossOf(edges)) && AllNamed(vs, edges) && e in edges
    ensures e.0 < |vs| && IsValid(vs[e.0]) && !OnBorder(vs[e.0])
  {
    assert CountOk(vs, edges.Keys, e.0);
    forall f | f in edges ensures Partnered(edges.Keys, f) {
      assert SharedSide(AcrossOf(edges), f.0, f.1);
    }
    assert Unpaired(edges.Keys, e.0) == {};
  }

  ghost predicate EdgeShared(vs: seq<Vertex>, edges: map<Edge, HalfEdge>, e: Edge) {
    e.0 < |vs| && IsValid(vs[e.0]) && (e.1, e.0) in edges
  }

  ghost predicate FaceNamed(vs: seq<Vertex>, f: Face) {
    f.v0 < |vs| && f.v1 < |vs| && f.v2 < |vs| && IsValid(vs[f.v0]) && IsValid(vs[f.v1]) && IsValid(vs[f.v2])
  }

  /** An edge fails the test of `is_closed_surface` just when the surface is open or an end unnamed. */
  lemma EdgeClosed(vs: seq<Vertex>, edges: map<Edge, HalfEdge>, faces: map<nat, Face>, e: Edge)
    requires MeshOk(vs, edges, faces) && e in edges
    ensures e.0 < |vs| && e.1 < |vs|
    ensures Closed(AcrossOf(edges)) && AllNamed(vs, edges) ==>
      (e.1, e.0) in edges && !OnBorder(vs[e.0]) && !OnBorder(vs[e.1]) && IsValid(vs[e.0]) && IsValid(vs[e.1])
  {
    SurfaceOfMesh(edges, faces, |vs|);
    if Closed(AcrossOf(edges)) && AllNamed(vs, edges) {
      assert SharedSide(AcrossOf(edges), e.0, e.1) && e == (e.0, e.1);
      ClosedOffBorder(vs, edges, faces, e);
      ClosedOffBorder(vs, edges, faces, (e.1, e.0));
    }
  }

  lemma MeshSides(vs: seq<Vertex>, edges: map<Edge, HalfEdge>, faces: map<nat, Face>)
    requires MeshOk(vs, edges, faces)
    ensures SidesOfFaces(edges, faces, |vs|)
  {
  }

  lemma AllShared(vs: seq<Vertex>, edges: map<Edge, HalfEdge>, faces: map<nat, Face>)
    requires MeshOk(vs, edges, faces) && forall e | e in edges :: EdgeShared(vs, edges, e)
    ensures Closed(AcrossOf(edges)) && AllNamed(vs, edges)
  {
    forall x: nat, y: nat ensures SharedSide(AcrossOf(edges), x, y) {
      assert (x, y) in edges ==> EdgeShared(vs, edges, (x, y));
    }
  }

  lemma FacesNamed(vs: seq<Vertex>, edges: map<Edge, HalfEdge>, faces: map<nat, Face>)
    requires MeshOk(vs, edges, faces) && AllNamed(vs, edges)
    ensures forall id | id in faces :: FaceNamed(vs, faces[id]) && SidesOk(edges, id, faces[id])
  {
    forall id | id in faces ensures FaceNamed(vs, faces[id]) && SidesOk(edges, id, faces[id]) {
      assert SidesOk(edges, id, faces[id]);
    }
  }

  // ---------- the mesh ----------

  class Mesh {
    const size: nat
    var vertices: seq<Vertex>
    var edges: map<Edge, HalfEdge>
    var faces: map<nat, Face>
    var maxFace: nat

    ghost predicate Valid()
      reads this
    {
      |vertices| == size && MeshOk(vertices, edges, faces)
    }

    constructor (size: nat)
      requires size <= VALID
      ensures Valid() && this.size == size && faces == map[] && edges == map[]
      ensures forall v | 0 <= v < size :: vertices[v] == Vertex(0, 0)
    {
      this.size := size;
      vertices := seq(size, _ => Vertex(0, 0));
      edges, faces, maxFace := map[], map[], 0;
      new;
      forall v | 0 <= v < size ensures CountOk(vertices, {}, v) {
        assert Unpaired({}, v) == {};
      }
      assert edges.Keys == {};
    }

    method AddEdge(x: nat, y: nat, z: nat, f: nat)
      requires CountsOk(vertices, edges.Keys) && x < |vertices| && y < |vertices|
      requires x != y && x != z && y != z && (x, y) !in edges
      modifies this`vertices, this`edges
      ensures CountsOk(vertices, edges.Keys) && |vertices| == |old(vertices)|
      ensures edges == old(edges)[(x, y) := HalfEdge(f, z)]
      ensures Named(old(vertices), vertices, x, f)
    {
      hide CountsOk, Increment, Decrement, IsValid;
      AddCounts(vertices, edges.Keys, x, y, (y, x) in edges);
      ghost var vs0, es0 := vertices, edges;
      if (y, x) in edges {
        vertices := vertices[x := Decrement(vertices[x])];
        vertices := vertices[y := Decrement(vertices[y])];
      } else {
        vertices := vertices[x := Increment(vertices[x])];
        vertices := vertices[y := Increment(vertices[y])];
      }
      NameCounts(vertices, edges.Keys + {(x, y)}, x, f);
      NamedAfter(vs0, vertices, x, f);
      vertices := vertices[x := Name(vertices[x], f)];
      edges := edges[(x, y) := HalfEdge(f, z)];
      assert edges.Keys == es0.Keys + {(x, y)};
    }

    method RemoveEdge(x: nat, y: nat, f: nat)
      requires CountsOk(vertices, edges.Keys) && (x, y) in edges && x < |vertices| && y < |vertices|
      modifies this`vertices, this`edges
      ensures CountsOk(vertices, edges.Keys) && |vertices| == |old(vertices)|
      ensures edges == old(edges) - {(x, y)}
      ensures Unnamed(old(vertices), vertices, x, f)
    {
      hide Increment, Decrement, IsValid;
      assert (x, y) in edges.Keys;
      ghost var vs0, es0 := vertices, edges;
      RemoveCounts(vertices, edges.Keys, x, y, (y, x) !in edges);
      if (y, x) in edges {
        vertices := vertices[x := Increment(vertices[x])];
        vertices := vertices[y := Increment(vertices[y])];
      } else {
        vertices := vertices[x := Decrement(vertices[x])];
        vertices := vertices[y := Decrement(vertices[y])];
      }
      NameCounts(vertices, edges.Keys - {(x, y)}, x, f);
      assert CountOk(vertices, edges.Keys - {(x, y)}, x);
      UnnamedAfter(vs0, vertices, x, f);
      if vertices[x].face == f {
        vertices := vertices[x := Unname(vertices[x])];
      }
      edges := edges - {(x, y)};
      assert edges.Keys == es0.Keys - {(x, y)};
    }

    /** Adds a face under a new id; its three half-edges must be free. */
    method AddFace(x: nat, y: nat, z: nat) returns (id: nat)
      requires Valid() && ProperFace(Face(x, y, z), size)
      requires (x, y) !in edges && (y, z) !in edges && (z, x) !in edges
      modifies this`vertices, this`edges, this`faces, this`maxFace
      ensures Valid() && id !in old(faces) && faces == old(faces)[id := Face(x, y, z)]
      ensures edges == WithSides(old(edges), id, x, y, z)
      ensures forall v | 0 <= v < size :: IsValid(vertices[v]) <==> old(IsValid(vertices[v])) || Has(Face(x, y, z), v)
    {
      hide CountsOk, SidesOfFaces, NamesOk, IsValid;
      ghost var vs0, es0, fs0 := vertices, edges, faces;
      maxFace := maxFace + 1;
      while maxFace in faces
        invariant vertices == vs0 && edges == es0 && faces == fs0
        decreases |From(faces.Keys, maxFace)|
      {
        FromShrinks(faces.Keys, maxFace);
        maxFace := maxFace + 1;
      }
      faces := faces[maxFace := Face(x, y, z)];
      AddEdge(x, y, z, maxFace);
      ghost var vs1 := vertices;
      AddEdge(y, z, x, maxFace);
      ghost var vs2 := vertices;
      AddEdge(z, x, y, maxFace);
      NamedFace(vs0, vs1, vs2, vertices, fs0, maxFace, x, y, z);
      AddSides(es0, fs0, size, maxFace, x, y, z);
      id := maxFace;
    }

    method RemoveFace(id: nat)
      requires Valid() && id in faces
      modifies this`vertices, this`edges, this`faces
      ensures Valid() && faces == old(faces) - {id}
      ensures var f := old(faces)[id]; edges == WithoutSides(old(edges), f.v0, f.v1, f.v2)
      ensures forall v | 0 <= v < size && !Has(old(faces)[id], v) :: IsValid(vertices[v]) == old(IsValid(vertices[v]))
    {
      hide CountsOk, NamesOk, IsValid, Corner;
      ghost var vs0, es0, fs0 := vertices, edges, faces;
      var f := faces[id];
      RemoveEdge(f.v0, f.v1, id);
      ghost var vs1 := vertices;
      RemoveEdge(f.v1, f.v2, id);
      ghost var vs2 := vertices;
      RemoveEdge(f.v2, f.v0, id);
      UnnamedFace(vs0, vs1, vs2, vertices, fs0, id);
      RemoveSides(es0, fs0, size, id);
      faces := faces - {id};
      assert edges == WithoutSides(es0, f.v0, f.v1, f.v2);
    }

    ghost function T(): Across
      reads this
    {
      AcrossOf(edges)
    }

    predicate ValidEdge(x: nat, y: nat)
      requires x < |vertices| && y < |vertices|
      reads this
    {
      IsValid(vertices[x]) && IsValid(vertices[y]) && !OnBorder(vertices[x]) && !OnBorder(vertices[y])
    }

    /** The sink of the half-edge that leaves `v` in the face it names, if `v` is off the border. */
    method VertexEdge(v: nat) returns (w: Option<nat>)
      requires Valid() && v < size
      ensures w.None? <==> OnBorder(vertices[v])
      ensures w.Some? ==> (v, w.value) in edges && edges[(v, w.value)].face == vertices[v].face
    {
      if OnBorder(vertices[v]) { return None; }
      assert NameOk(vertices, faces, v);
      if vertices[v].face !in faces { return None; }
      var f := faces[vertices[v].face];
      assert SidesOk(edges, vertices[v].face, f);
      return Some(if f.v0 == v then f.v1 else if f.v1 == v then f.v2 else f.v0);
    }

    /** Closed is what it says: every side shared, and every vertex in use named. */
    method IsClosedSurface() returns (closed: bool)
      requires Valid()
      ensures closed <==> Closed(T()) && AllNamed(vertices, edges)
    {
      hide MeshOk, CountsOk, Closed, AllNamed, SidesOfFaces, NamesOk, AcrossOf;
      MeshSides(vertices, edges, faces);
      ThreeSides(edges, faces, size);
      if |edges| != 3 * |faces| { return false; }
      closed := EdgesClosed();
      if closed {
        FacesNamed(vertices, edges, faces);
        closed := FacesComplete();
      }
    }

    /** The first loop of `is_closed_surface`. */
    method EdgesClosed() returns (closed: bool)
      requires Valid()
      ensures closed <==> Closed(T()) && AllNamed(vertices, edges)
    {
      hide MeshOk, Closed, AllNamed, IsValid, OnBorder, AcrossOf;
      var todo := edges.Keys;
      while todo != {}
        invariant todo <= edges.Keys
        invariant forall e | e in edges && e !in todo :: EdgeShared(vertices, edges, e)
        decreases |todo|
      {
        var e: Edge :| e in todo;
        EdgeClosed(vertices, edges, faces, e);
        if (e.1, e.0) !in edges || OnBorder(vertices[e.0]) || OnBorder(vertices[e.1])
          || !IsValid(vertices[e.0]) || !IsValid(vertices[e.1]) {
          return false;
        }
        todo := todo - {e};
      }
      AllShared(vertices, edges, faces);
      return true;
    }

    /** The second: its faces are there whole, whenever the first was passed. */
    method FacesComplete() returns (complete: bool)
      requires |vertices| == size && forall id | id in faces :: FaceNamed(vertices, faces[id]) && SidesOk(edges, id, faces[id])
      ensures complete
    {
      hide IsValid;
      var ids := faces.Keys;
      while ids != {}
        invariant ids <= faces.Keys
        decreases |ids|
      {
        var id :| id in ids;
        var f := faces[id];
        assert SidesOk(edges, id, f) && FaceNamed(vertices, f);
        if !(IsValid(vertices[f.v0]) && IsValid(vertices[f.v1]) && IsValid(vertices[f.v2])) { return false; }
        if !((f.v0, f.v1) in edges && (f.v1, f.v2) in edges && (f.v2, f.v0) in edges) { return false; }
        ids := ids - {id};
      }
      return true;
    }

    /** Collapses the edge from `x` to `y` into `y`; `ring` is the ring of `x` from `y`. */
    method CollapseEdge(x: nat, y: nat, ghost ring: seq<nat>) returns (v: nat)
      requires Valid() && Collapsible(T(), x, y, ring) && AllNamed(vertices, edges)
      modifies this`vertices, this`edges, this`faces, this`maxFace
      ensures Valid() && v == y && AllNamed(vertices, edges)
      ensures Triangles(T()) && IsCollapse(old(T()), T(), x, y)
      ensures |faces| == |old(faces)| - 2
    {
      hide MeshOk, Collapsible, IsCollapse, Moved, AllNamed, Relit, IsValid;
      ghost var t, vs0 := T(), vertices;
      ghost var last := |ring| - 1;
      CollapseFacts(vertices, edges, faces, x, y, ring);
      assert ValidEdge(x, y);  // so neither end is on the border and the ends are never swapped
      var v1, v2 := x, y;
      var vr, vl := edges[(v1, v2)].vertex, edges[(v2, v1)].vertex;
      RemoveAt(v1, v2);
      ghost var vs1 := vertices;
      RemoveAt(v2, v1);
      RelitStart(vs0, vs1, vertices, ring, v1, v2);
      MovedOne(t, v1, v2, ring);
      var u := vr;
      ghost var i := 1;
      while u != vl
        invariant 1 <= i <= last && u == ring[i] && |vertices| == size
        invariant Valid() && T() == Moved(t, v1, v2, ring, i) && |faces| == |old(faces)| - 2
        invariant Relit(vs0, vertices, ring, v1, v2, i)
        decreases last - i
      {
        u := MoveTriangle(v1, v2, u, ring, i, t, vs0);
        i := i + 1;
      }
      RingIndex(t, v1, v2, ring, i, last);
      MovedIsCollapse(t, v1, v2, ring);
      CollapseNames(vs0, vertices, old(edges), edges, v1, v2, ring);
      v := v2;
    }

    /** The body of the collapse loop: the triangle of `a` behind `u`, at ring position `i`, moves to `b`. */
    method MoveTriangle(a: nat, b: nat, u: nat, ghost ring: seq<nat>, ghost i: nat, ghost t: Across, ghost vs0: seq<Vertex>) returns (nv: nat)
      requires Collapsible(t, a, b, ring) && 1 <= i < |ring| - 1 && u == ring[i] && b < size && |vertices| == size
      requires Valid() && T() == Moved(t, a, b, ring, i) && Relit(vs0, vertices, ring, a, b, i)
      modifies this`vertices, this`edges, this`faces, this`maxFace
      ensures Valid() && T() == Moved(t, a, b, ring, i + 1) && nv == ring[i + 1] && |vertices| == size
      ensures Relit(vs0, vertices, ring, a, b, i + 1) && |faces| == |old(faces)|
    {
      hide MeshOk, Collapsible, Moved, IsValid, Relit, AcrossOf, WithSides;
      MovedFacts(vertices, edges, faces, t, a, b, ring, i);
      nv := edges[(a, u)].vertex;
      ghost var vs, es := vertices, edges;
      RemoveAt(a, u);
      ghost var vs1, mid, fs1 := vertices, edges, faces;
      FreeAfter(es, mid, a, b, u, nv);
      var id := AddFace(b, u, nv);
      assert faces.Keys == fs1.Keys + {id};
      AcrossAfter(es, mid, edges, id, t, a, b, ring, i);
      RelitNext(vs0, vs, vs1, vertices, t, ring, a, b, i);
    }

    /** Removes the face of half-edge (x, y). */
    method RemoveAt(x: nat, y: nat)
      requires Valid() && (x, y) in edges
      modifies this`vertices, this`edges, this`faces
      ensures Valid() && T() == WithoutTri(old(T()), x, y, old(edges)[(x, y)].vertex)
      ensures |faces| == |old(faces)| - 1
      ensures forall v | 0 <= v < size && v != x && v != y && v != old(edges)[(x, y)].vertex ::
        IsValid(vertices[v]) == old(IsValid(vertices[v]))
    {
      FaceOfEdge(edges, faces, size, x, y);
      hide MeshOk, IsValid;
      ghost var fs, id := faces, edges[(x, y)].face;
      RemoveFace(edges[(x, y)].face);
      assert fs == faces[id := fs[id]];
    }
  }

  /** The bits while the ring is walked: lit again at `b` and along the ring up to position `i`, once anything has been
      moved, and never touched away from the star of `a`. */
  ghost predicate Relit(vs0: seq<Vertex>, vs: seq<Vertex>, ring: seq<nat>, a: nat, b: nat, i: int) {
    && |vs| == |vs0| && i < |ring|
    && (forall v: nat | v < |vs0| && v != a && v !in ring :: IsValid(vs[v]) == IsValid(vs0[v]))
    && (i >= 2 ==> forall j | 0 <= j <= i :: ring[j] < |vs| && IsValid(vs[ring[j]]))
  }

  ghost function From(keys: set<nat>, n: nat): (s: set<nat>) {
    set k | k in keys && k >= n
  }

  lemma FromShrinks(keys: set<nat>, n: nat)
    requires n in keys
    ensures |From(keys, n + 1)| < |From(keys, n)|
  {
    assert From(keys, n) == From(keys, n + 1) + {n};
  }

  lemma NamedFace(vs0: seq<Vertex>, vs1: seq<Vertex>, vs2: seq<Vertex>, vs3: seq<Vertex>, faces: map<nat, Face>, id: nat, x: nat, y: nat, z: nat)
    requires NamesOk(vs0, faces) && id !in faces
    requires Named(vs0, vs1, x, id) && Named(vs1, vs2, y, id) && Named(vs2, vs3, z, id)
    ensures NamesOk(vs3, faces[id := Face(x, y, z)])
    ensures forall v | 0 <= v < |vs0| :: IsValid(vs3[v]) <==> IsValid(vs0[v]) || Has(Face(x, y, z), v)
  {
    var faces' := faces[id := Face(x, y, z)];
    forall v | 0 <= v < |vs0| ensures NameOk(vs3, faces', v) { assert NameOk(vs0, faces, v); }
  }

  lemma UnnamedFace(vs0: seq<Vertex>, vs1: seq<Vertex>, vs2: seq<Vertex>, vs3: seq<Vertex>, faces: map<nat, Face>, id: nat)
    requires NamesOk(vs0, faces) && id in faces
    requires Unnamed(vs0, vs1, faces[id].v0, id) && Unnamed(vs1, vs2, faces[id].v1, id) && Unnamed(vs2, vs3, faces[id].v2, id)
    ensures NamesOk(vs3, faces - {id})
    ensures forall v | 0 <= v < |vs0| && !Has(faces[id], v) :: IsValid(vs3[v]) == IsValid(vs0[v])
  {
    var faces' := faces - {id};
    forall v | 0 <= v < |vs0| ensures NameOk(vs3, faces', v) { assert NameOk(vs0, faces, v); }
  }

  /** Only vertex `x` has been renamed, to `f`. */
  ghost predicate Named(vs: seq<Vertex>, r: seq<Vertex>, x: nat, f: nat) {
    && |r| == |vs| && x < |vs| && r[x].face == f && IsValid(r[x])
    && forall v | 0 <= v < |vs| && v != x :: r[v].face == vs[v].face && IsValid(r[v]) == IsValid(vs[v])
  }

  /** Only the bit of vertex `x` may have changed: it is gone if the name was `f`. */
  ghost predicate Unnamed(vs: seq<Vertex>, r: seq<Vertex>, x: nat, f: nat) {
    && |r| == |vs| && x < |vs| && r[x].face == vs[x].face && (IsValid(r[x]) <==> IsValid(vs[x]) && vs[x].face != f)
    && forall v | 0 <= v < |vs| && v != x :: r[v].face == vs[v].face && IsValid(r[v]) == IsValid(vs[v])
  }

  lemma NamedAfter(vs0: seq<Vertex>, vs: seq<Vertex>, x: nat, f: nat)
    requires SameNames(vs0, vs) && x < |vs|
    ensures Named(vs0, vs[x := Name(vs[x], f)], x, f)
  {
  }

  lemma UnnamedAfter(vs0: seq<Vertex>, vs: seq<Vertex>, x: nat, f: nat)
    requires SameNames(vs0, vs) && x < |vs| && vs[x].open < WORD
    ensures Unnamed(vs0, if vs[x].face == f then vs[x := Unname(vs[x])] else vs, x, f)
  {
  }

  lemma CollapseFacts(vs: seq<Vertex>, edges: map<Edge, HalfEdge>, faces: map<nat, Face>, a: nat, b: nat, ring: seq<nat>)
    requires MeshOk(vs, edges, faces) && Collapsible(AcrossOf(edges), a, b, ring) && AllNamed(vs, edges)
    ensures |ring| >= 3 && a < |vs| && b < |vs| && (a, b) in edges && (b, a) in edges
    ensures edges[(a, b)].vertex == ring[1] && edges[(b, a)].vertex == ring[|ring| - 1]
    ensures !OnBorder(vs[a]) && !OnBorder(vs[b]) && IsValid(vs[a]) && IsValid(vs[b]) && ring[0] == b
    ensures forall i | 0 <= i < |ring| :: ring[i] < |vs|
    ensures Tri(WithoutTri(AcrossOf(edges), a, b, ring[1]), b, a, ring[|ring| - 1])
  {
    var t := AcrossOf(edges);
    OnEdge(t, a, b, ring);
    SurfaceOfMesh(edges, faces, |vs|);
    OffBorder(vs, edges, faces, a);
    OffBorder(vs, edges, faces, b);
    forall i | 0 <= i < |ring| ensures ring[i] < |vs| { assert RingStep(t, a, ring, i); }
  }

  lemma MovedOne(t: Across, a: nat, b: nat, ring: seq<nat>)
    requires |ring| >= 2
    ensures Moved(t, a, b, ring, 1) == WithoutTri(WithoutTri(t, a, b, ring[1]), b, a, ring[|ring| - 1])
  {
  }

  /** The triangle about to be moved is there, and its place at `b` is free. */
  lemma MovedFacts(vs: seq<Vertex>, edges: map<Edge, HalfEdge>, faces: map<nat, Face>, t: Across, a: nat, b: nat, ring: seq<nat>, i: nat)
    requires MeshOk(vs, edges, faces) && Collapsible(t, a, b, ring) && 1 <= i < |ring| - 1
    requires AcrossOf(edges) == Moved(t, a, b, ring, i) && b < |vs|
    ensures (a, ring[i]) in edges && edges[(a, ring[i])].vertex == ring[i + 1]
    ensures ProperFace(Face(b, ring[i], ring[i + 1]), |vs|)
    ensures (b, ring[i]) !in edges && (ring[i + 1], b) !in edges
    ensures b != a && ring[i] != a && ring[i + 1] != a
  {
    hide MeshOk, SidesOfFaces, Collapsible, Moved, MovedTri, Triangles, HalfEdges, AcrossOf;
    var m := Moved(t, a, b, ring, i);
    MeshSides(vs, edges, faces);
    MovedChar(t, a, b, ring, i);
    Free(t, a, b, ring, i + 1, m);
    Corners(t, a, b, ring, i + 1);
    SurfaceOfMesh(edges, faces, |vs|);
    SameSides(edges, m, a, b, ring[i], ring[i + 1]);
  }

  lemma SameSides(edges: map<Edge, HalfEdge>, m: Across, a: nat, b: nat, u: nat, v: nat)
    requires AcrossOf(edges) == m
    ensures (b, u) !in m ==> (b, u) !in edges
    ensures (v, b) !in m ==> (v, b) !in edges
    ensures Tri(m, a, u, v) ==> (a, u) in edges && edges[(a, u)].vertex == v
  {
  }

  lemma RingIndex(t: Across, a: nat, b: nat, ring: seq<nat>, i: nat, j: nat)
    requires Collapsible(t, a, b, ring) && i < |ring| && j < |ring| && ring[i] == ring[j]
    ensures i == j
  {
  }

  lemma FreeAfter(es: map<Edge, HalfEdge>, mid: map<Edge, HalfEdge>, a: nat, b: nat, u: nat, nv: nat)
    requires AcrossOf(mid) == WithoutTri(AcrossOf(es), a, u, nv) && (b, u) !in es && (nv, b) !in es
    ensures (b, u) !in mid && (u, nv) !in mid && (nv, b) !in mid
  {
    assert forall e :: e in mid <==> e in AcrossOf(mid);
    assert forall e :: e in es <==> e in AcrossOf(es);
  }

  lemma AcrossAfter(es: map<Edge, HalfEdge>, mid: map<Edge, HalfEdge>, edges: map<Edge, HalfEdge>, id: nat, t: Across, a: nat, b: nat, ring: seq<nat>, i: nat)
    requires 1 <= i < |ring| - 1 && AcrossOf(es) == Moved(t, a, b, ring, i)
    requires AcrossOf(mid) == WithoutTri(AcrossOf(es), a, ring[i], ring[i + 1]) && edges == WithSides(mid, id, b, ring[i], ring[i + 1])
    ensures AcrossOf(edges) == Moved(t, a, b, ring, i + 1)
  {
    AcrossWith(mid, id, b, ring[i], ring[i + 1]);
  }

  /** Taking off the two triangles on the edge only touches bits of the star. */
  lemma RelitStart(vs0: seq<Vertex>, vs1: seq<Vertex>, vs: seq<Vertex>, ring: seq<nat>, a: nat, b: nat)
    requires |ring| >= 3 && ring[0] == b && |vs0| == |vs1| == |vs|
    requires forall v | 0 <= v < |vs0| && v != a && v != b && v != ring[1] :: IsValid(vs1[v]) == IsValid(vs0[v])
    requires forall v | 0 <= v < |vs0| && v != b && v != a && v != ring[|ring| - 1] :: IsValid(vs[v]) == IsValid(vs1[v])
    ensures Relit(vs0, vs, ring, a, b, 1)
  {
    assert ring[0] in ring && ring[1] in ring && ring[|ring| - 1] in ring;
  }

  lemma RelitNext(vs0: seq<Vertex>, vs: seq<Vertex>, vs1: seq<Vertex>, vs2: seq<Vertex>, t: Across, ring: seq<nat>, a: nat, b: nat, i: nat)
    requires Collapsible(t, a, b, ring) && 1 <= i < |ring| - 1 && Relit(vs0, vs, ring, a, b, i)
    requires |vs| == |vs1| == |vs2| && b < |vs| && ring[i] < |vs| && ring[i + 1] < |vs|
    requires forall v | 0 <= v < |vs| && v != a && v != ring[i] && v != ring[i + 1] :: IsValid(vs1[v]) == IsValid(vs[v])
    requires forall v | 0 <= v < |vs| :: IsValid(vs2[v]) <==> IsValid(vs1[v]) || Has(Face(b, ring[i], ring[i + 1]), v)
    ensures Relit(vs0, vs2, ring, a, b, i + 1)
  {
    EdgeTris(t, a, b, ring);
    forall j | 0 <= j <= i + 1 ensures ring[j] < |vs2| && IsValid(vs2[ring[j]]) {
      if 0 < j < i { assert IsValid(vs[ring[j]]); }
    }
  }

  lemma CollapseNames(vs0: seq<Vertex>, vs: seq<Vertex>, edges0: map<Edge, HalfEdge>, edges: map<Edge, HalfEdge>, a: nat, b: nat, ring: seq<nat>)
    requires Collapsible(AcrossOf(edges0), a, b, ring) && IsCollapse(AcrossOf(edges0), AcrossOf(edges), a, b)
    requires AllNamed(vs0, edges0) && Relit(vs0, vs, ring, a, b, |ring| - 1)
    ensures AllNamed(vs, edges)
  {
    var t, m := AcrossOf(edges0), AcrossOf(edges);
    forall e | e in edges ensures e.0 < |vs| && IsValid(vs[e.0]) {
      assert e == (e.0, e.1) && (e.0, e.1) in m;
      UsedBefore(t, m, a, b, ring, e.0);
      var x: nat :| (e.0, x) in t;
      assert (e.0, x) in edges0;
      if e.0 in ring {
        var j: nat :| j < |ring| && ring[j] == e.0;
      }
    }
  }
}
