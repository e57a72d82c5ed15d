/** Which voxels the watershed joins: those with a strong affinity between them, and every inner voxel with the neighbour
    it is closest to. */
module VoxelEdges {
  import opened Counting
  import opened FloodFill

  // ---------- the volume ----------

  datatype Dims = Dims(x: nat, y: nat, z: nat)

  function Size(d: Dims): (n: nat) {
    d.z * d.y * d.x
  }

  /** The position of voxel (x, y, z) in the volume. */
  function Index(d: Dims, x: nat, y: nat, z: nat): (j: nat) {
    Row(d, y, z) * d.x + x
  }

  function Row(d: Dims, y: nat, z: nat): (r: nat) {
    z * d.y + y
  }

  function Nhood(d: Dims): (s: seq<int>)
    ensures |s| == 6
  {
    var row: int, plane: int := d.x, d.x * d.y;
    [-1, -row, -plane, 1, row, plane]
  }

  lemma NextX(d: Dims, x: nat, y: nat, z: nat)
    ensures Index(d, x + 1, y, z) == Index(d, x, y, z) + 1
  {
  }

  lemma NextY(d: Dims, y: nat, z: nat)
    ensures Index(d, d.x, y, z) == Index(d, 0, y + 1, z)
  {
    var a := z * d.y + y;
    assert (a + 1) * d.x == a * d.x + d.x;
  }

  lemma NextZ(d: Dims, z: nat)
    ensures Index(d, 0, d.y, z) == Index(d, 0, 0, z + 1)
  {
    assert (z + 1) * d.y == z * d.y + d.y;
  }

  lemma LastIndex(d: Dims)
    ensures Index(d, 0, 0, d.z) == Size(d)
  {
  }

  /** Positions rise with each coordinate. */
  lemma Monotone(a: nat, b: nat, n: nat)
    requires a <= b
    ensures a * n <= b * n
  {
  }

  lemma IndexInside(d: Dims, x: nat, y: nat, z: nat)
    requires x < d.x && y < d.y && z < d.z
    ensures Index(d, x, y, z) < Size(d)
  {
    var row := z * d.y + y;
    Monotone(z + 1, d.z, d.y);
    assert (z + 1) * d.y == z * d.y + d.y;
    assert row + 1 <= d.z * d.y;
    Monotone(row + 1, d.z * d.y, d.x);
    assert (row + 1) * d.x == row * d.x + d.x;
  }

  lemma DivMod(q: nat, r: nat, n: nat)
    requires r < n
    ensures (q * n + r) / n == q && (q * n + r) % n == r
  {
    var q', r' := (q * n + r) / n, (q * n + r) % n;
    assert q * n + r == q' * n + r';
    LessProduct(q, q', n);
    LessProduct(q', q, n);
  }

  lemma LessProduct(a: nat, b: nat, n: nat)
    ensures a < b ==> a * n + n <= b * n
  {
    if a < b {
      Monotone(a + 1, b, n);
      assert (a + 1) * n == a * n + n;
    }
  }

  function XOf(d: Dims, j: nat): (x: nat)
    requires d.x > 0
  {
    j % d.x
  }

  function YOf(d: Dims, j: nat): (y: nat)
    requires d.x > 0 && d.y > 0
  {
    j / d.x % d.y
  }

  function ZOf(d: Dims, j: nat): (z: nat)
    requires d.x > 0 && d.y > 0
  {
    j / d.x / d.y
  }

  lemma Coordinates(d: Dims, x: nat, y: nat, z: nat)
    requires x < d.x && y < d.y
    ensures var j := Index(d, x, y, z); XOf(d, j) == x && YOf(d, j) == y && ZOf(d, j) == z
  {
    DivMod(z * d.y + y, x, d.x);
    DivMod(z, y, d.y);
  }

  /** From every position back to its coordinates. */
  lemma AllIndexed(d: Dims, j: nat)
    requires j < Size(d)
    ensures d.x > 0 && d.y > 0 && XOf(d, j) < d.x && YOf(d, j) < d.y && ZOf(d, j) < d.z
    ensures Index(d, XOf(d, j), YOf(d, j), ZOf(d, j)) == j
  {
    assert d.x > 0 && d.y > 0;
    var row := j / d.x;
    assert j == row * d.x + j % d.x && row == row / d.y * d.y + row % d.y;
    if row / d.y >= d.z {
      Monotone(d.z, row / d.y, d.y);
      Monotone(d.z * d.y, row, d.x);
    }
  }

  /** Off all six faces of the volume. */
  predicate Inner(d: Dims, x: nat, y: nat, z: nat) {
    0 < x && 0 < y && 0 < z && x + 1 < d.x && y + 1 < d.y && z + 1 < d.z
  }

  /** The affinity of (x, y, z) in direction k = 0, 1, 2 belongs to two voxels that are, but for that direction, off the
      faces. */
  predicate Eligible(d: Dims, x: nat, y: nat, z: nat, k: nat) {
    0 < x && 0 < y && 0 < z && x < d.x && y < d.y && z < d.z
    && (x + 1 == d.x ==> k == 0) && (y + 1 == d.y ==> k == 1) && (z + 1 == d.z ==> k == 2)
  }

  /** Stepping back along a coordinate that is not the first, or on along one that is not the last, stays inside. */
  lemma StepInside(d: Dims, x: nat, y: nat, z: nat, k: nat)
    requires x < d.x && y < d.y && z < d.z && k < 6
    requires k == 0 ==> x > 0
    requires k == 1 ==> y > 0
    requires k == 2 ==> z > 0
    requires k == 3 ==> x + 1 < d.x
    requires k == 4 ==> y + 1 < d.y
    requires k == 5 ==> z + 1 < d.z
    ensures 0 <= Index(d, x, y, z) + Nhood(d)[k] < Size(d)
  {
    hide Index, Size;
    IndexInside(d, x, y, z);
    if k == 0 { NextX(d, x - 1, y, z); }
    else if k == 1 { UpY(d, x, y - 1, z); IndexInside(d, x, y - 1, z); }
    else if k == 2 { UpZ(d, x, y, z - 1); IndexInside(d, x, y, z - 1); }
    else if k == 3 { NextX(d, x, y, z); IndexInside(d, x + 1, y, z); }
    else if k == 4 { UpY(d, x, y, z); IndexInside(d, x, y + 1, z); }
    else { UpZ(d, x, y, z); IndexInside(d, x, y, z + 1); }
  }

  lemma UpY(d: Dims, x: nat, y: nat, z: nat)
    ensures Index(d, x, y + 1, z) == Index(d, x, y, z) + d.x
  {
    var row := Row(d, y, z);
    assert (row + 1) * d.x == row * d.x + d.x;
  }

  lemma UpZ(d: Dims, x: nat, y: nat, z: nat)
    ensures Index(d, x, y, z + 1) == Index(d, x, y, z) + d.x * d.y
  {
    var row := Row(d, y, z);
    assert Row(d, y, z + 1) == row + d.y;
    assert (row + d.y) * d.x == row * d.x + d.x * d.y;
  }

  // ---------- marks ----------

  /** A drawn edge: a voxel and the direction in which it was drawn from there. */
  type Drawn = (nat, nat)

  /** Voxel v is marked in direction z when an edge was drawn so from there, or back from the voxel it leads to. */
  ghost predicate MarkFrom(nhood: seq<int>, drawn: set<Drawn>, v: nat, z: nat) {
    z < 6 && |nhood| == 6 && ((v, z) in drawn || (v + nhood[z] >= 0 && (v + nhood[z], Opposite(z)) in drawn))
  }

  ghost predicate WordBy(w: seq<Word>, nhood: seq<int>, drawn: set<Drawn>, counted: set<nat>, v: nat) {
    && v < |w| && w[v].Marks? && !w[v].visited && (w[v].counted <==> v in counted)
    && forall z: nat {:trigger z in w[v].dirs} {:trigger MarkFrom(nhood, drawn, v, z)} :: z in w[v].dirs <==> MarkFrom(nhood, drawn, v, z)
  }

  /** The words say what was drawn and counted. */
  ghost predicate MarkedBy(w: seq<Word>, nhood: seq<int>, drawn: set<Drawn>, counted: set<nat>) {
    forall v: nat {:trigger WordBy(w, nhood, drawn, counted, v)} | v < |w| :: WordBy(w, nhood, drawn, counted, v)
  }

  ghost predicate NhoodOk(nhood: seq<int>) {
    |nhood| == 6 && forall z: nat {:trigger nhood[z]} | z < 6 :: nhood[z] != 0 && nhood[Opposite(z)] == -nhood[z]
  }

  ghost predicate DrawnInside(nhood: seq<int>, drawn: set<Drawn>, n: nat) {
    forall p {:trigger p in drawn} | p in drawn :: p.0 < n && p.1 < 6 && |nhood| == 6 && 0 <= p.0 + nhood[p.1] < n
  }

  function Mark(w: Word, z: nat): (r: Word) {
    if w.Marks? then w.(dirs := w.dirs + {z}) else w
  }

  function CountMe(w: Word): (r: Word) {
    if w.Marks? then w.(counted := true) else w
  }

  /** Marking an edge at both its ends. */
  lemma Draw(w: seq<Word>, nhood: seq<int>, drawn: set<Drawn>, counted: set<nat>, v: nat, z: nat)
    requires MarkedBy(w, nhood, drawn, counted) && NhoodOk(nhood) && v < |w| && z < 6 && 0 <= v + nhood[z] < |w|
    ensures var t := v + nhood[z]; MarkedBy(w[v := Mark(w[v], z)][t := Mark(w[t], Opposite(z))], nhood, drawn + {(v, z)}, counted)
  {
    var t, d := v + nhood[z], drawn + {(v, z)};
    var r := w[v := Mark(w[v], z)][t := Mark(w[t], Opposite(z))];
    assert WordBy(w, nhood, drawn, counted, v) && WordBy(w, nhood, drawn, counted, t);
    forall u: nat | u < |r| ensures WordBy(r, nhood, d, counted, u) {
      assert WordBy(w, nhood, drawn, counted, u);
      forall y: nat ensures y in r[u].dirs <==> MarkFrom(nhood, d, u, y) {
        DrawMark(nhood, drawn, v, z, u, y);
        assert y in w[u].dirs <==> MarkFrom(nhood, drawn, u, y);
      }
    }
  }

  lemma DrawMark(nhood: seq<int>, drawn: set<Drawn>, v: nat, z: nat, u: nat, y: nat)
    requires NhoodOk(nhood) && z < 6 && v + nhood[z] >= 0
    ensures MarkFrom(nhood, drawn + {(v, z)}, u, y) <==>
      MarkFrom(nhood, drawn, u, y) || (u == v && y == z) || (u == v + nhood[z] && y == Opposite(z))
  {
    assert nhood[Opposite(z)] == -nhood[z];
  }

  lemma CountMark(w: seq<Word>, nhood: seq<int>, drawn: set<Drawn>, counted: set<nat>, v: nat)
    requires MarkedBy(w, nhood, drawn, counted) && v < |w|
    ensures MarkedBy(w[v := CountMe(w[v])], nhood, drawn, counted + {v})
  {
    var r := w[v := CountMe(w[v])];
    forall u: nat | u < |r| ensures WordBy(r, nhood, drawn, counted + {v}, u) {
      assert WordBy(w, nhood, drawn, counted, u);
    }
  }

  /** Marks drawn inside the volume are what the fill asks for. */
  lemma MarkedWell(w: seq<Word>, nhood: seq<int>, drawn: set<Drawn>, counted: set<nat>)
    requires MarkedBy(w, nhood, drawn, counted) && |nhood| == 6 && (|w| > 0 ==> NhoodOk(nhood)) && DrawnInside(nhood, drawn, |w|)
    ensures WellMarked(w, nhood)
  {
    forall v: nat | v < |w| ensures VoxelMarked(w, nhood, v) {
      assert WordBy(w, nhood, drawn, counted, v);
      forall z | z in w[v].dirs ensures MarkOk(w, nhood, v, z) {
        assert MarkFrom(nhood, drawn, v, z);
        assert nhood[z] != 0;
        var t := v + nhood[z];
        if (v, z) in drawn { assert 0 <= t < |w|; } else { assert (t, Opposite(z)) in drawn; }
        assert WordBy(w, nhood, drawn, counted, t);
        assert MarkFrom(nhood, drawn, t, Opposite(z));
      }
    }
  }

  // ---------- which edges ----------

  /** The affinity between voxel j and the one before it in direction k. */
  function Affinity(conn: seq<real>, d: Dims, j: nat, k: nat): (a: real)
    requires |conn| == 3 * Size(d) && j < Size(d) && k < 3
  {
    if k == 0 then conn[j] else if k == 1 then conn[Size(d) + j] else conn[2 * Size(d) + j]
  }

  predicate Strong(conn: seq<real>, d: Dims, hi: real, j: nat, k: nat)
    requires |conn| == 3 * Size(d)
  {
    j < Size(d) && k < 3 && d.x > 0 && d.y > 0 && Eligible(d, XOf(d, j), YOf(d, j), ZOf(d, j), k) && Affinity(conn, d, j, k) >= hi
  }

  predicate InnerAt(d: Dims, j: nat) {
    j < Size(d) && d.x > 0 && d.y > 0 && Inner(d, XOf(d, j), YOf(d, j), ZOf(d, j))
  }

  /** The affinity between voxel j and its neighbour in direction z. */
  function Toward(conn: seq<real>, d: Dims, j: nat, z: nat): (a: real)
    requires |conn| == 3 * Size(d) && j < Size(d) && z < 6 && 0 <= j + Nhood(d)[z] < Size(d)
  {
    if z < 3 then Affinity(conn, d, j, z) else Affinity(conn, d, j + Nhood(d)[z], z - 3)
  }

  /** The best direction so far, counted from one, its affinity, and the best before that; both affinities start at -1 in
      the basic watershed, and at the least affinity in quickie. */
  datatype Best = Best(direction: nat, top: real, second: real)

  function Check(b: Best, direction: nat, a: real): (r: Best) {
    if a > b.top then Best(direction, a, b.top) else b
  }

  ghost predicate NeighboursInside(d: Dims, j: nat) {
    j < Size(d) && forall z {:trigger Nhood(d)[z]} | 0 <= z < 6 :: 0 <= j + Nhood(d)[z] < Size(d)
  }

  ghost function Pick(conn: seq<real>, d: Dims, start: real, j: nat, z: nat): (b: Best)
    requires |conn| == 3 * Size(d) && NeighboursInside(d, j) && z <= 6
  {
    if z == 0 then Best(0, start, start) else Check(Pick(conn, d, start, j, z - 1), z, Toward(conn, d, j, z - 1))
  }

  /** The pick is the first direction of greatest affinity, if any is above the start; and the best before it was less, so
      the comparison of the two never fails. */
  lemma {:induction false} PickIsSteepest(conn: seq<real>, d: Dims, start: real, j: nat, z: nat)
    requires |conn| == 3 * Size(d) && NeighboursInside(d, j) && z <= 6
    ensures var b := Pick(conn, d, start, j, z);
      && b.direction <= z && (b.direction == 0 ==> b.top == start) && (b.direction > 0 ==> b.top > b.second && b.top > start)
      && (b.direction > 0 ==> Toward(conn, d, j, b.direction - 1) == b.top)
      && (forall y | 0 <= y < z :: Toward(conn, d, j, y) <= b.top && (y + 1 < b.direction ==> Toward(conn, d, j, y) < b.top))
  {
    if z > 0 { PickIsSteepest(conn, d, start, j, z - 1); }
  }

  // ---------- the passes ----------

  /** The strong edges of directions before k, and of direction k at voxels before j. */
  ghost function StrongTo(conn: seq<real>, d: Dims, hi: real, k: nat, j: nat): (s: set<Drawn>)
    requires |conn| == 3 * Size(d)
  {
    set v, q | v in Below(Size(d)) && q in Below(3) && (q < k || (q == k && v < j)) && Strong(conn, d, hi, v, q) :: (v, q)
  }

  lemma StrongNext(conn: seq<real>, d: Dims, hi: real, k: nat, j: nat)
    requires |conn| == 3 * Size(d) && j < Size(d) && k < 3
    ensures StrongTo(conn, d, hi, k, j + 1) == StrongTo(conn, d, hi, k, j) + (if Strong(conn, d, hi, j, k) then {(j, k)} else {})
  {
    hide Strong, Size;
  }

  lemma StrongRound(conn: seq<real>, d: Dims, hi: real, k: nat)
    requires |conn| == 3 * Size(d)
    ensures StrongTo(conn, d, hi, k + 1, 0) == StrongTo(conn, d, hi, k, Size(d))
  {
    hide Strong, Size;
  }

  /** The test of the first loop, at the coordinates of j. */
  lemma StrongAt(conn: seq<real>, d: Dims, hi: real, x: nat, y: nat, z: nat, k: nat)
    requires |conn| == 3 * Size(d) && x < d.x && y < d.y && z < d.z && k < 3
    ensures var j := Index(d, x, y, z); j < Size(d) && (Strong(conn, d, hi, j, k) <==> Eligible(d, x, y, z, k) && Affinity(conn, d, j, k) >= hi)
    ensures Eligible(d, x, y, z, k) ==> 0 <= Index(d, x, y, z) + Nhood(d)[k] < Size(d)
  {
    hide Index, Size, Affinity, XOf, YOf, ZOf;
    IndexInside(d, x, y, z);
    Coordinates(d, x, y, z);
    if Eligible(d, x, y, z, k) { StepInside(d, x, y, z, k); }
  }

  lemma NhoodFine(d: Dims)
    requires Size(d) > 0
    ensures NhoodOk(Nhood(d))
  {
    assert d.z * d.y * d.x == d.z * (d.x * d.y);
    assert d.x != 0 && d.x * d.y != 0;
  }

  /** The first loop of `add_edges`, for direction k. */
  method StrongPass(conn: seq<real>, d: Dims, hi: real, k: nat, result: array<Word>)
    requires |conn| == 3 * Size(d) && result.Length == Size(d) && k < 3
    requires MarkedBy(result[..], Nhood(d), StrongTo(conn, d, hi, k, 0), {})
    modifies result
    ensures MarkedBy(result[..], Nhood(d), StrongTo(conn, d, hi, k + 1, 0), {})
  {
    hide Index, Size, MarkedBy, StrongTo, Strong, Nhood;
    LastIndex(d);
    FirstIndex(d);
    var j := 0;
    for z := 0 to d.z
      invariant j == Index(d, 0, 0, z) && MarkedBy(result[..], Nhood(d), StrongTo(conn, d, hi, k, j), {})
    {
      for y := 0 to d.y
        invariant j == Index(d, 0, y, z) && MarkedBy(result[..], Nhood(d), StrongTo(conn, d, hi, k, j), {})
      {
        for x := 0 to d.x
          invariant j == Index(d, x, y, z) && MarkedBy(result[..], Nhood(d), StrongTo(conn, d, hi, k, j), {})
        {
          StrongVoxel(conn, d, hi, k, x, y, z, j, result);
          NextX(d, x, y, z);
          j := j + 1;
        }
        NextY(d, y, z);
      }
      NextZ(d, z);
    }
    StrongRound(conn, d, hi, k);
  }

  lemma FirstIndex(d: Dims)
    ensures Index(d, 0, 0, 0) == 0
  {
  }

  /** Its body. */
  method StrongVoxel(conn: seq<real>, d: Dims, hi: real, k: nat, x: nat, y: nat, z: nat, j: nat, result: array<Word>)
    requires |conn| == 3 * Size(d) && result.Length == Size(d) && k < 3 && x < d.x && y < d.y && z < d.z && j == Index(d, x, y, z)
    requires MarkedBy(result[..], Nhood(d), StrongTo(conn, d, hi, k, j), {})
    modifies result
    ensures MarkedBy(result[..], Nhood(d), StrongTo(conn, d, hi, k, j + 1), {})
  {
    hide Index, Size, MarkedBy, StrongTo, Strong, NhoodOk;
    StrongAt(conn, d, hi, x, y, z, k);
    StrongNext(conn, d, hi, k, j);
    NhoodFine(d);
    ghost var w, drawn := result[..], StrongTo(conn, d, hi, k, j);
    assert drawn + {} == drawn;
    if x == 0 || y == 0 || z == 0 || (x == d.x - 1 && k != 0) || (y == d.y - 1 && k != 1) || (z == d.z - 1 && k != 2) {
    } else if conn[k * Size(d) + j] >= hi {
      Draw(w, Nhood(d), drawn, {}, j, k);
      var t := j + Nhood(d)[k];
      result[j] := Mark(result[j], k);
      result[t] := Mark(result[t], k + 3);
      TwoUpdates(w, result[..], j, t, k);
    }
  }

  lemma TwoUpdates(w: seq<Word>, r: seq<Word>, v: nat, t: nat, z: nat)
    requires v < |w| == |r| && t < |w| && v != t && z < 6
    requires r[v] == Mark(w[v], z) && r[t] == Mark(w[t], Opposite(z)) && forall u | 0 <= u < |w| && u != v && u != t :: r[u] == w[u]
    ensures r == w[v := Mark(w[v], z)][t := Mark(w[t], Opposite(z))]
  {
  }

  // ---------- the steepest neighbour ----------

  /** An inner voxel has all six neighbours. */
  lemma InnerInside(d: Dims, j: nat)
    requires InnerAt(d, j)
    ensures NeighboursInside(d, j)
  {
    hide Index, Size, XOf, YOf, ZOf, Nhood;
    AllIndexed(d, j);
    forall z | 0 <= z < 6 ensures 0 <= j + Nhood(d)[z] < Size(d) {
      StepInside(d, XOf(d, j), YOf(d, j), ZOf(d, j), z);
    }
  }

  /** Where an inner voxel is drawn to its steepest neighbour, and where it counts. */
  ghost predicate Steep(conn: seq<real>, d: Dims, start: real, low: real, j: nat, z: nat)
    requires |conn| == 3 * Size(d)
  {
    InnerAt(d, j) && NeighboursInside(d, j) && z < 6 && Pick(conn, d, start, j, 6).direction == z + 1 && Pick(conn, d, start, j, 6).top >= low
  }

  ghost predicate Counts(conn: seq<real>, d: Dims, start: real, low: real, least: real, j: nat)
    requires |conn| == 3 * Size(d)
  {
    InnerAt(d, j) && NeighboursInside(d, j) && Pick(conn, d, start, j, 6).direction > 0
    && (Pick(conn, d, start, j, 6).top >= low || Pick(conn, d, start, j, 6).top >= least)
  }

  /** The edges drawn by the second loop at voxels before j, and the voxels it counts. */
  ghost function SteepTo(conn: seq<real>, d: Dims, start: real, low: real, j: nat): (s: set<Drawn>)
    requires |conn| == 3 * Size(d)
  {
    if j == 0 then {} else SteepTo(conn, d, start, low, j - 1) + SteepAt(conn, d, start, low, j - 1)
  }

  ghost function SteepAt(conn: seq<real>, d: Dims, start: real, low: real, j: nat): (s: set<Drawn>)
    requires |conn| == 3 * Size(d)
  {
    if InnerAt(d, j) && NeighboursInside(d, j) && Drawing(Pick(conn, d, start, j, 6), low) then {(j, Pick(conn, d, start, j, 6).direction - 1)} else {}
  }

  lemma SteepAtIs(conn: seq<real>, d: Dims, start: real, low: real, j: nat, v: nat, z: nat)
    requires |conn| == 3 * Size(d)
    ensures (v, z) in SteepAt(conn, d, start, low, j) <==> v == j && Steep(conn, d, start, low, v, z)
  {
    if NeighboursInside(d, j) { PickIsSteepest(conn, d, start, j, 6); }
    hide Pick, Size, InnerAt, NeighboursInside;
  }

  ghost function CountedTo(conn: seq<real>, d: Dims, start: real, low: real, least: real, j: nat): (s: set<nat>)
    requires |conn| == 3 * Size(d)
  {
    if j == 0 then {} else CountedTo(conn, d, start, low, least, j - 1) + (if Counts(conn, d, start, low, least, j - 1) then {j - 1} else {})
  }

  lemma {:induction false} SteepToIs(conn: seq<real>, d: Dims, start: real, low: real, least: real, j: nat, v: nat, z: nat)
    requires |conn| == 3 * Size(d)
    ensures (v, z) in SteepTo(conn, d, start, low, j) <==> v < j && Steep(conn, d, start, low, v, z)
    ensures v in CountedTo(conn, d, start, low, least, j) <==> v < j && Counts(conn, d, start, low, least, v)
    decreases j
  {
    hide Steep, Counts, Size, SteepAt;
    if j > 0 {
      SteepToIs(conn, d, start, low, least, j - 1, v, z);
      SteepAtIs(conn, d, start, low, j - 1, v, z);
    }
  }

  /** What the second loop does at j, by the pick there. */
  lemma SteepNext(conn: seq<real>, d: Dims, start: real, low: real, least: real, j: nat)
    requires |conn| == 3 * Size(d) && j < Size(d)
    ensures !InnerAt(d, j) ==> SteepTo(conn, d, start, low, j + 1) == SteepTo(conn, d, start, low, j) && CountedTo(conn, d, start, low, least, j + 1) == CountedTo(conn, d, start, low, least, j)
    ensures InnerAt(d, j) ==> NeighboursInside(d, j)
    ensures InnerAt(d, j) && Drawing(Pick(conn, d, start, j, 6), low) ==>
      SteepTo(conn, d, start, low, j + 1) == SteepTo(conn, d, start, low, j) + {(j, Pick(conn, d, start, j, 6).direction - 1)}
    ensures InnerAt(d, j) && !Drawing(Pick(conn, d, start, j, 6), low) ==> SteepTo(conn, d, start, low, j + 1) == SteepTo(conn, d, start, low, j)
    ensures InnerAt(d, j) && ToCount(Pick(conn, d, start, j, 6), low, least) ==>
      CountedTo(conn, d, start, low, least, j + 1) == CountedTo(conn, d, start, low, least, j) + {j}
    ensures InnerAt(d, j) && !ToCount(Pick(conn, d, start, j, 6), low, least) ==>
      CountedTo(conn, d, start, low, least, j + 1) == CountedTo(conn, d, start, low, least, j)
  {
    hide InnerAt, NeighboursInside, Pick, Size;
    if InnerAt(d, j) {
      InnerInside(d, j);
      PickIsSteepest(conn, d, start, j, 6);
    }
  }

  ghost predicate Drawing(b: Best, low: real) {
    b.direction > 0 && b.top >= low
  }

  ghost predicate ToCount(b: Best, low: real, least: real) {
    b.direction > 0 && (b.top >= low || b.top >= least)
  }

  /** The second loop of `add_edges`. */
  method SteepPass(conn: seq<real>, d: Dims, start: real, low: real, least: real, result: array<Word>, ghost strong: set<Drawn>)
    requires |conn| == 3 * Size(d) && result.Length == Size(d) && MarkedBy(result[..], Nhood(d), strong, {})
    modifies result
    ensures MarkedBy(result[..], Nhood(d), strong + SteepTo(conn, d, start, low, Size(d)), CountedTo(conn, d, start, low, least, Size(d)))
  {
    hide Index, Size, MarkedBy, SteepTo, CountedTo, Nhood;
    LastIndex(d);
    FirstIndex(d);
    SteepStart(conn, d, start, low, least);
    assert strong + {} == strong;
    var j := 0;
    for z := 0 to d.z
      invariant j == Index(d, 0, 0, z)
      invariant MarkedBy(result[..], Nhood(d), strong + SteepTo(conn, d, start, low, j), CountedTo(conn, d, start, low, least, j))
    {
      for y := 0 to d.y
        invariant j == Index(d, 0, y, z)
        invariant MarkedBy(result[..], Nhood(d), strong + SteepTo(conn, d, start, low, j), CountedTo(conn, d, start, low, least, j))
      {
        for x := 0 to d.x
          invariant j == Index(d, x, y, z)
          invariant MarkedBy(result[..], Nhood(d), strong + SteepTo(conn, d, start, low, j), CountedTo(conn, d, start, low, least, j))
        {
          SteepVoxel(conn, d, start, low, least, x, y, z, j, result, strong);
          NextX(d, x, y, z);
          j := j + 1;
        }
        NextY(d, y, z);
      }
      NextZ(d, z);
    }
  }

  lemma SteepStart(conn: seq<real>, d: Dims, start: real, low: real, least: real)
    requires |conn| == 3 * Size(d)
    ensures SteepTo(conn, d, start, low, 0) == {} && CountedTo(conn, d, start, low, least, 0) == {}
  {
  }

  /** Its body. */
  method SteepVoxel(conn: seq<real>, d: Dims, start: real, low: real, least: real, x: nat, y: nat, z: nat, j: nat, result: array<Word>, ghost strong: set<Drawn>)
    requires |conn| == 3 * Size(d) && result.Length == Size(d) && x < d.x && y < d.y && z < d.z && j == Index(d, x, y, z)
    requires MarkedBy(result[..], Nhood(d), strong + SteepTo(conn, d, start, low, j), CountedTo(conn, d, start, low, least, j))
    modifies result
    ensures MarkedBy(result[..], Nhood(d), strong + SteepTo(conn, d, start, low, j + 1), CountedTo(conn, d, start, low, least, j + 1))
  {
    hide Index, Size, MarkedBy, SteepTo, CountedTo, NhoodOk, Pick, InnerAt;
    InnerIs(d, x, y, z);
    SteepNext(conn, d, start, low, least, j);
    NhoodFine(d);
    ghost var counted := CountedTo(conn, d, start, low, least, j);
    assert counted + {} == counted;
    if x == 0 || y == 0 || z == 0 || x == d.x - 1 || y == d.y - 1 || z == d.z - 1 { return; }
    var b := PickAt(conn, d, start, j);
    if b.direction > 0 {
      if b.top >= low {
        if b.top > b.second {
          ghost var drawn := strong + SteepTo(conn, d, start, low, j);
          DrawEdge(result, d, j, b.direction - 1, drawn, counted);
          assert drawn + {(j, b.direction - 1)} == strong + SteepTo(conn, d, start, low, j + 1);
        }
        CountVoxel(result, d, j, strong + SteepTo(conn, d, start, low, j + 1), counted);
      } else if b.top >= least {
        CountVoxel(result, d, j, strong + SteepTo(conn, d, start, low, j + 1), counted);
      }
    }
  }

  lemma InnerIs(d: Dims, x: nat, y: nat, z: nat)
    requires x < d.x && y < d.y && z < d.z
    ensures Index(d, x, y, z) < Size(d) && (InnerAt(d, Index(d, x, y, z)) <==> Inner(d, x, y, z))
  {
    hide Index, Size, XOf, YOf, ZOf;
    IndexInside(d, x, y, z);
    Coordinates(d, x, y, z);
  }

  /** The six checks. */
  method PickAt(conn: seq<real>, d: Dims, start: real, j: nat) returns (b: Best)
    requires |conn| == 3 * Size(d) && NeighboursInside(d, j)
    ensures b == Pick(conn, d, start, j, 6) && b.direction <= 6 && (b.direction > 0 ==> b.top > b.second)
  {
    hide Size;
    var n, row, plane := Size(d), d.x, d.x * d.y;
    assert Nhood(d)[3] == 1 && Nhood(d)[4] == row && Nhood(d)[5] == plane;
    PickIsSteepest(conn, d, start, j, 6);
    b := Best(0, start, start);
    b := Check(b, 1, conn[j]);
    assert b == Pick(conn, d, start, j, 1);
    b := Check(b, 2, conn[j + n]);
    assert b == Pick(conn, d, start, j, 2);
    b := Check(b, 3, conn[j + 2 * n]);
    assert b == Pick(conn, d, start, j, 3);
    b := Check(b, 4, conn[j + 1]);
    assert b == Pick(conn, d, start, j, 4);
    b := Check(b, 5, conn[j + n + row]);
    assert b == Pick(conn, d, start, j, 5);
    b := Check(b, 6, conn[j + 2 * n + plane]);
  }

  /** Marks an edge at both its ends. */
  method DrawEdge(result: array<Word>, d: Dims, j: nat, z: nat, ghost drawn: set<Drawn>, ghost counted: set<nat>)
    requires MarkedBy(result[..], Nhood(d), drawn, counted) && NhoodOk(Nhood(d)) && j < result.Length && z < 6 && 0 <= j + Nhood(d)[z] < result.Length
    modifies result
    ensures MarkedBy(result[..], Nhood(d), drawn + {(j, z)}, counted)
  {
    ghost var w := result[..];
    Draw(w, Nhood(d), drawn, counted, j, z);
    hide MarkedBy, Nhood;
    assert Nhood(d)[z] != 0;
    var t := j + Nhood(d)[z];
    result[j] := Mark(result[j], z);
    result[t] := Mark(result[t], if z < 3 then z + 3 else z - 3);
    TwoUpdates(w, result[..], j, t, z);
  }

  method CountVoxel(result: array<Word>, d: Dims, j: nat, ghost drawn: set<Drawn>, ghost counted: set<nat>)
    requires MarkedBy(result[..], Nhood(d), drawn, counted) && j < result.Length
    modifies result
    ensures MarkedBy(result[..], Nhood(d), drawn, counted + {j})
  {
    ghost var w := result[..];
    CountMark(w, Nhood(d), drawn, counted, j);
    hide MarkedBy, Nhood;
    result[j] := CountMe(result[j]);
    assert result[..] == w[j := CountMe(w[j])];
  }

  // ---------- the marks of the whole volume ----------

  /** All edges the two loops draw: the strong ones and the steep ones. */
  ghost function AllDrawn(conn: seq<real>, d: Dims, start: real, low: real, hi: real): (s: set<Drawn>)
    requires |conn| == 3 * Size(d)
  {
    StrongTo(conn, d, hi, 3, 0) + SteepTo(conn, d, start, low, Size(d))
  }

  lemma AllDrawnIs(conn: seq<real>, d: Dims, start: real, low: real, hi: real, v: nat, z: nat)
    requires |conn| == 3 * Size(d)
    ensures (v, z) in AllDrawn(conn, d, start, low, hi) <==> Strong(conn, d, hi, v, z) || Steep(conn, d, start, low, v, z)
  {
    SteepToIs(conn, d, start, low, low, Size(d), v, z);
    hide Size;
  }

  /** They stay inside the volume. */
  lemma AllInside(conn: seq<real>, d: Dims, start: real, low: real, hi: real)
    requires |conn| == 3 * Size(d)
    ensures DrawnInside(Nhood(d), AllDrawn(conn, d, start, low, hi), Size(d))
  {
    hide Size, AllDrawn, Nhood;
    forall p | p in AllDrawn(conn, d, start, low, hi) ensures p.0 < Size(d) && p.1 < 6 && 0 <= p.0 + Nhood(d)[p.1] < Size(d) {
      AllDrawnIs(conn, d, start, low, hi, p.0, p.1);
      assert p == (p.0, p.1);
      if Strong(conn, d, hi, p.0, p.1) { StrongInside(conn, d, hi, p.0, p.1); }
    }
  }

  lemma StrongInside(conn: seq<real>, d: Dims, hi: real, j: nat, k: nat)
    requires |conn| == 3 * Size(d) && Strong(conn, d, hi, j, k)
    ensures k < 3 && j < Size(d) && 0 <= j + Nhood(d)[k] < Size(d)
  {
    hide Index, Size, XOf, YOf, ZOf, Nhood, Affinity;
    AllIndexed(d, j);
    StepInside(d, XOf(d, j), YOf(d, j), ZOf(d, j), k);
  }

  // ---------- inner voxels ----------

  /** The volume has voxels off all its faces. */
  predicate Thick(d: Dims) {
    d.x >= 3 && d.y >= 3 && d.z >= 3
  }

  lemma ThinHasNoInner(d: Dims, j: nat)
    requires !Thick(d)
    ensures !InnerAt(d, j)
  {
    hide Index, Size, XOf, YOf, ZOf;
  }

  /** The neighbour a strong edge leads to is inner where the voxel it starts from is not. */
  lemma StrongBack(d: Dims, x: nat, y: nat, z: nat, k: nat)
    requires Thick(d) && k < 3 && Eligible(d, x, y, z, k) && !Inner(d, x, y, z)
    ensures var t := Index(d, x, y, z) + Nhood(d)[k]; t >= 0 && InnerAt(d, t)
  {
    hide Index, Size, InnerAt;
    if k == 0 {
      NextX(d, x - 1, y, z);
      InnerIs(d, x - 1, y, z);
    } else if k == 1 {
      UpY(d, x, y - 1, z);
      InnerIs(d, x, y - 1, z);
    } else {
      UpZ(d, x, y, z - 1);
      InnerIs(d, x, y, z - 1);
    }
  }

  /** In a volume with inner voxels every edge drawn has an inner end. */
  lemma DrawnAtInner(conn: seq<real>, d: Dims, start: real, low: real, hi: real, v: nat, z: nat)
    requires |conn| == 3 * Size(d) && Thick(d) && (v, z) in AllDrawn(conn, d, start, low, hi)
    ensures z < 6 && 0 <= v + Nhood(d)[z] < Size(d) && (InnerAt(d, v) || InnerAt(d, v + Nhood(d)[z]))
  {
    hide Size, AllDrawn, Nhood, Index, InnerAt, XOf, YOf, ZOf, Affinity;
    AllInside(conn, d, start, low, hi);
    AllDrawnIs(conn, d, start, low, hi, v, z);
    assert (v, z).1 < 6 && 0 <= (v, z).0 + Nhood(d)[(v, z).1] < Size(d);
    if Strong(conn, d, hi, v, z) {
      AllIndexed(d, v);
      var a, b, c := XOf(d, v), YOf(d, v), ZOf(d, v);
      InnerIs(d, a, b, c);
      if !Inner(d, a, b, c) { StrongBack(d, a, b, c, z); }
    }
  }

  // ---------- affinities at the faces ----------

  ghost predicate EligibleAt(d: Dims, j: nat, k: nat) {
    j < Size(d) && k < 3 && d.x > 0 && d.y > 0 && Eligible(d, XOf(d, j), YOf(d, j), ZOf(d, j), k)
  }

  /** The two agree but for affinities across or along a face, such as those quickie overwrites on its way. */
  ghost predicate SameInside(conn: seq<real>, over: seq<real>, d: Dims) {
    && |conn| == |over| == 3 * Size(d)
    && forall j: nat, k: nat {:trigger EligibleAt(d, j, k)} | EligibleAt(d, j, k) :: Affinity(over, d, j, k) == Affinity(conn, d, j, k)
  }

  lemma TowardUnread(conn: seq<real>, over: seq<real>, d: Dims, j: nat, z: nat)
    requires SameInside(conn, over, d) && InnerAt(d, j) && NeighboursInside(d, j) && z < 6
    ensures Toward(over, d, j, z) == Toward(conn, d, j, z)
  {
    hide Index, Size, XOf, YOf, ZOf, Affinity;
    AllIndexed(d, j);
    var x, y, c := XOf(d, j), YOf(d, j), ZOf(d, j);
    if z < 3 {
      assert EligibleAt(d, j, z);
    } else {
      StepInside(d, x, y, c, z);
      if z == 3 { NextX(d, x, y, c); Coordinates(d, x + 1, y, c); }
      else if z == 4 { UpY(d, x, y, c); Coordinates(d, x, y + 1, c); }
      else { UpZ(d, x, y, c); Coordinates(d, x, y, c + 1); }
      assert EligibleAt(d, j + Nhood(d)[z], z - 3);
    }
  }

  lemma {:induction false} PickUnread(conn: seq<real>, over: seq<real>, d: Dims, start: real, j: nat, z: nat)
    requires SameInside(conn, over, d) && InnerAt(d, j) && NeighboursInside(d, j) && z <= 6
    ensures Pick(over, d, start, j, z) == Pick(conn, d, start, j, z)
  {
    if z > 0 {
      PickUnread(conn, over, d, start, j, z - 1);
      TowardUnread(conn, over, d, j, z - 1);
    }
  }

  /** Affinities at the faces of the volume have no say in what is drawn and counted. */
  lemma FacesUnread(conn: seq<real>, over: seq<real>, d: Dims, start: real, low: real, hi: real, least: real)
    requires SameInside(conn, over, d)
    ensures AllDrawn(over, d, start, low, hi) == AllDrawn(conn, d, start, low, hi)
    ensures CountedTo(over, d, start, low, least, Size(d)) == CountedTo(conn, d, start, low, least, Size(d))
  {
    hide Size, AllDrawn, CountedTo, Pick, Affinity, InnerAt, NeighboursInside;
    forall p: Drawn ensures p in AllDrawn(over, d, start, low, hi) <==> p in AllDrawn(conn, d, start, low, hi) {
      assert p == (p.0, p.1);
      AllDrawnIs(conn, d, start, low, hi, p.0, p.1);
      AllDrawnIs(over, d, start, low, hi, p.0, p.1);
      if InnerAt(d, p.0) && NeighboursInside(d, p.0) { PickUnread(conn, over, d, start, p.0, 6); }
      if EligibleAt(d, p.0, p.1) { assert Affinity(over, d, p.0, p.1) == Affinity(conn, d, p.0, p.1); }
    }
    forall v ensures v in CountedTo(over, d, start, low, least, Size(d)) <==> v in CountedTo(conn, d, start, low, least, Size(d)) {
      SteepToIs(conn, d, start, low, least, Size(d), v, 0);
      SteepToIs(over, d, start, low, least, Size(d), v, 0);
      if InnerAt(d, v) && NeighboursInside(d, v) { PickUnread(conn, over, d, start, v, 6); }
    }
  }

  /** Step one of the watershed: marks the strong and the steep edges at both their ends, inside the volume. */
  method AddEdges(conn: seq<real>, d: Dims, start: real, low: real, hi: real, least: real, result: array<Word>)
    requires |conn| == 3 * Size(d) && result.Length == Size(d) && forall v | 0 <= v < result.Length :: Empty(result[v])
    modifies result
    ensures MarkedBy(result[..], Nhood(d), AllDrawn(conn, d, start, low, hi), CountedTo(conn, d, start, low, least, Size(d)))
    ensures WellMarked(result[..], Nhood(d))
  {
    hide Size, MarkedBy, StrongTo, SteepTo, CountedTo, Nhood, WellMarked;
    EmptyMarks(result[..], conn, d, hi);
    for k := 0 to 3
      invariant MarkedBy(result[..], Nhood(d), StrongTo(conn, d, hi, k, 0), {})
    {
      StrongPass(conn, d, hi, k, result);
    }
    SteepPass(conn, d, start, low, least, result, StrongTo(conn, d, hi, 3, 0));
    AllInside(conn, d, start, low, hi);
    if Size(d) > 0 { NhoodFine(d); }
    MarkedWell(result[..], Nhood(d), AllDrawn(conn, d, start, low, hi), CountedTo(conn, d, start, low, least, Size(d)));
  }

  lemma EmptyMarks(w: seq<Word>, conn: seq<real>, d: Dims, hi: real)
    requires |conn| == 3 * Size(d) && forall v | 0 <= v < |w| :: Empty(w[v])
    ensures MarkedBy(w, Nhood(d), StrongTo(conn, d, hi, 0, 0), {})
  {
    hide Size;
    assert StrongTo(conn, d, hi, 0, 0) == {};
  }
}
