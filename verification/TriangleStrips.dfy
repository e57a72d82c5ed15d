/** Triangle strips: the triangles they stand for, and how a walk over adjacent faces prints as one. */
module TriangleStrips {
  import opened Paths
  import opened TriMesh

  // ---------- reading a strip ----------

  predicate Degenerate(x: nat, y: nat, z: nat) {
    x == y || y == z || z == x
  }

  /** The triangle at position `i` of a strip: every other one has its first two vertices swapped. */
  function Oriented(i: nat, x: nat, y: nat, z: nat): (f: Face) {
    if i % 2 == 0 then Face(x, y, z) else Face(y, x, z)
  }

  /** The triangles of a strip, without the degenerate ones. */
  function Decode(s: seq<nat>): (ds: seq<Face>) {
    if |s| < 3 then []
    else
      var i := |s| - 3;
      Decode(s[..|s| - 1]) + (if Degenerate(s[i], s[i + 1], s[i + 2]) then [] else [Oriented(i, s[i], s[i + 1], s[i + 2])])
  }

  lemma DecodePush(s: seq<nat>, x: nat)
    requires |s| >= 2
    ensures Decode(s + [x]) ==
      Decode(s) + (if Degenerate(s[|s| - 2], s[|s| - 1], x) then [] else [Oriented(|s| - 2, s[|s| - 2], s[|s| - 1], x)])
  {
    assert (s + [x])[..|s|] == s;
  }

  /** `d` is `f` read the other way round, from any corner. */
  ghost predicate Backwards(f: Face, d: Face) {
    Corner(Face(f.v0, f.v2, f.v1), d.v0, d.v1, d.v2)
  }

  // ---------- faces and their sides, by number ----------

  /** Slot 4i stands for face i, slots 4i + 1, 4i + 2, 4i + 3 for its sides opposite its first, second and third vertex. */
  function FaceOf(e: nat): (f: nat)
    ensures Aligned(f) && f <= e <= f + 3 && (Aligned(e) <==> f == e)
  {
    e - e % 4
  }

  predicate Aligned(e: nat) {
    e % 4 == 0
  }

  predicate IsFace(n: nat, f: nat) {
    f < 4 * n && Aligned(f)
  }

  predicate IsSide(n: nat, e: nat) {
    e < 4 * n && !Aligned(e)
  }

  /** `face_data_[ f >> 2 ].v[ k - 1 ]`. */
  function VertexOf(faces: seq<Face>, f: nat, k: nat): (v: nat)
    requires f < 4 * |faces| && 1 <= k <= 3
  {
    if k == 1 then faces[f / 4].v0 else if k == 2 then faces[f / 4].v1 else faces[f / 4].v2
  }

  /** The directed side of its face that slot `e` stands for. */
  function SideOf(faces: seq<Face>, e: nat): (s: Edge)
    requires IsSide(|faces|, e)
  {
    (VertexOf(faces, e, e % 4 % 3 + 1), VertexOf(faces, e, (e % 4 + 1) % 3 + 1))
  }

  predicate Inverse(s: Edge, r: Edge) {
    s.0 == r.1 && s.1 == r.0
  }

  ghost predicate ProperFaces(faces: seq<Face>) {
    && (forall i {:trigger faces[i]} | 0 <= i < |faces| :: !Degenerate(faces[i].v0, faces[i].v1, faces[i].v2))
    && (forall d: nat, e: nat {:trigger SideOf(faces, d), SideOf(faces, e)} |
          IsSide(|faces|, d) && IsSide(|faces|, e) && SideOf(faces, d) == SideOf(faces, e) :: d == e)
  }

  // ---------- printing ----------

  /** The last two vertices printed are the ends of side `e`, in the order that shows its face backwards. */
  ghost predicate Entering(faces: seq<Face>, s: seq<nat>, e: nat) {
    && IsSide(|faces|, e) && |s| >= 2
    && var (x, y) := SideOf(faces, e);
       if |s| % 2 == 0 then s[|s| - 2] == y && s[|s| - 1] == x else s[|s| - 2] == x && s[|s| - 1] == y
  }

  /** ds are the faces p, one by one, backwards. */
  ghost predicate Shows(faces: seq<Face>, ds: seq<Face>, p: seq<nat>) {
    |ds| == |p| && forall i | 0 <= i < |p| :: p[i] < 4 * |faces| && Backwards(faces[p[i] / 4], ds[i])
  }

  lemma ShowsMore(faces: seq<Face>, ds: seq<Face>, p: seq<nat>, d: Face, f: nat)
    requires Shows(faces, ds, p) && f < 4 * |faces| && Backwards(faces[f / 4], d)
    ensures Shows(faces, ds + [d], p + [f])
  {
  }

  lemma ShowsBoth(faces: seq<Face>, ds: seq<Face>, p: seq<nat>, es: seq<Face>, q: seq<nat>)
    requires Shows(faces, ds, p) && Shows(faces, es, q)
    ensures Shows(faces, ds + es, p + q)
  {
  }

  /** The first face of a strip, from the vertex opposite the side `e` it is left by. */
  lemma PrintFirst(faces: seq<Face>, e: nat, r: nat)
    requires ProperFaces(faces) && IsSide(|faces|, e) && IsSide(|faces|, r) && Inverse(SideOf(faces, e), SideOf(faces, r))
    ensures var k := e % 4; var s := [VertexOf(faces, e, k), VertexOf(faces, e, CircleEdge(k)), VertexOf(faces, e, CircleEdge(CircleEdge(k)))];
      && Entering(faces, s, r) && Shows(faces, Decode(s), [FaceOf(e)])
      && CircleEdge(CircleEdge(CircleEdge(k))) == k
  {
    var k := e % 4;
    var s := [VertexOf(faces, e, k), VertexOf(faces, e, CircleEdge(k)), VertexOf(faces, e, CircleEdge(CircleEdge(k)))];
    assert s[..2] == [s[0], s[1]];
    assert Decode(s) == [Face(s[0], s[1], s[2])];
    assert FaceOf(e) / 4 == e / 4;
  }

  /** A face on its own. */
  lemma PrintSingle(faces: seq<Face>, f: nat)
    requires ProperFaces(faces) && IsFace(|faces|, f)
    ensures Shows(faces, Decode([VertexOf(faces, f, 1), VertexOf(faces, f, 3), VertexOf(faces, f, 2), VertexOf(faces, f, 3)]), [f])
  {
    var x, y, z := VertexOf(faces, f, 1), VertexOf(faces, f, 2), VertexOf(faces, f, 3);
    DecodePush([x, z], y);
    DecodePush([x, z, y], z);
    assert [x, z] + [y] == [x, z, y] && [x, z, y] + [z] == [x, z, y, z];
  }

  /** `circle_edge`. */
  function CircleEdge(k: nat): (r: nat)
    requires 1 <= k <= 3
    ensures 1 <= r <= 3
  {
    if k == 1 then 3 else if k == 2 then 1 else 2
  }

  /** `expected_idx`. */
  function ExpectedIdx(ccw: nat, k: nat): (r: nat)
    requires 1 <= k <= 3
    ensures 1 <= r <= 3 && r != k
  {
    if ccw == 0 then CircleEdge(k) else k % 3 + 1
  }

  /** A face entered by `e` is shown backwards by pushing the vertex opposite `e`. */
  lemma PrintFace(faces: seq<Face>, s: seq<nat>, e: nat)
    requires ProperFaces(faces) && Entering(faces, s, e)
    ensures var w := VertexOf(faces, e, e % 4);
      exists d :: Decode(s + [w]) == Decode(s) + [d] && Backwards(faces[e / 4], d)
  {
    var w := VertexOf(faces, e, e % 4);
    DecodePush(s, w);
    var i := |s| - 2;
    var d := Oriented(i, s[i], s[i + 1], w);
    assert faces[e / 4] == faces[e / 4];
    assert Decode(s + [w]) == Decode(s) + [d] && Backwards(faces[e / 4], d);
  }

  /** After that, the strip goes on over the side `expected_idx` names. */
  lemma GoOn(faces: seq<Face>, s: seq<nat>, e: nat, ccw: nat, r: nat)
    requires Entering(faces, s, e) && ccw == |s| % 2
    requires IsSide(|faces|, r) && Inverse(SideOf(faces, FaceOf(e) + ExpectedIdx(ccw, e % 4)), SideOf(faces, r))
    ensures Entering(faces, s + [VertexOf(faces, e, e % 4)], r)
  {
    assert FaceOf(e) / 4 == e / 4;
  }

  /** Pushing the vertex before the last again shows nothing and turns the strip the other way. */
  lemma Swap(faces: seq<Face>, s: seq<nat>, e: nat)
    requires Entering(faces, s, e)
    ensures Entering(faces, s + [s[|s| - 2]], e) && Decode(s + [s[|s| - 2]]) == Decode(s)
  {
    hide Decode, SideOf;
    DecodePush(s, s[|s| - 2]);
  }

  // ---------- the output ----------

  /** Vertices of all strips, and where each strip begins and how long it is. */
  datatype Output = Output(vertices: seq<nat>, begins: seq<nat>, lengths: seq<nat>)

  predicate Laid(o: Output) {
    |o.begins| == |o.lengths| && forall k | 0 <= k < |o.begins| :: o.begins[k] + o.lengths[k] <= |o.vertices|
  }

  function StripAt(o: Output, k: nat): (s: seq<nat>)
    requires Laid(o) && k < |o.begins|
  {
    o.vertices[o.begins[k]..o.begins[k] + o.lengths[k]]
  }

  /** What the first `m` strips stand for. */
  function DecodeAll(o: Output, m: nat): (ds: seq<Face>)
    requires Laid(o) && m <= |o.begins|
  {
    if m == 0 then []
    else DecodeAll(o, m - 1) + Decode(StripAt(o, m - 1))
  }

  function Append(o: Output, s: seq<nat>): (r: Output) {
    Output(o.vertices + s, o.begins + [|o.vertices|], o.lengths + [|s|])
  }

  lemma AppendStrips(o: Output, s: seq<nat>, k: nat)
    requires Laid(o) && k <= |o.begins|
    ensures Laid(Append(o, s)) && StripAt(Append(o, s), k) == if k < |o.begins| then StripAt(o, k) else s
  {
    if k < |o.begins| {
      assert (o.vertices + s)[o.begins[k]..o.begins[k] + o.lengths[k]] == StripAt(o, k);
    } else {
      assert (o.vertices + s)[|o.vertices|..|o.vertices| + |s|] == s;
    }
  }

  lemma AppendMore(o: Output, s: seq<nat>)
    ensures |Append(o, s).begins| == |o.begins| + 1
  {
  }

  lemma {:induction false} DecodeAllStays(o: Output, s: seq<nat>, m: nat)
    requires Laid(o) && m <= |o.begins|
    ensures Laid(Append(o, s)) && DecodeAll(Append(o, s), m) == DecodeAll(o, m)
  {
    hide Decode, StripAt, Append;
    AppendStrips(o, s, m);
    if m > 0 {
      DecodeAllStays(o, s, m - 1);
      AppendStrips(o, s, m - 1);
      AppendMore(o, s);
    }
  }

  lemma DecodeAppend(o: Output, s: seq<nat>)
    requires Laid(o)
    ensures Laid(Append(o, s)) && DecodeAll(Append(o, s), |o.begins| + 1) == DecodeAll(o, |o.begins|) + Decode(s)
  {
    DecodeAllStays(o, s, |o.begins|);
    AppendStrips(o, s, |o.begins|);
  }
}
