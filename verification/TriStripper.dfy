/** Growing triangle strips: paths of faces, joined over shared sides until no two can be joined, then printed. */
module TriStripper {
  import opened Counting
  import opened Paths
  import opened TriMesh
  import opened TriangleStrips

  lemma FaceSlots(n: nat, f: nat)
    requires IsFace(n, f)
    ensures f + 3 < 4 * n && FaceOf(f) == f
    ensures IsSide(n, f + 1) && IsSide(n, f + 2) && IsSide(n, f + 3)
    ensures FaceOf(f + 1) == FaceOf(f + 2) == FaceOf(f + 3) == f
    ensures !IsSide(n, f)
  {
    hide IsSide, FaceOf, IsFace;
    SlotAt(n, f, 1);
    SlotAt(n, f, 2);
    SlotAt(n, f, 3);
    NoSide(n, f);
  }

  lemma NoSide(n: nat, f: nat)
    requires IsFace(n, f)
    ensures FaceOf(f) == f && !IsSide(n, f)
  {
  }

  lemma SlotAt(n: nat, f: nat, k: nat)
    requires IsFace(n, f) && 1 <= k <= 3
    ensures f + k < 4 * n && IsSide(n, f + k) && FaceOf(f + k) == f && (f + k) % 4 == k
  {
  }

  lemma SideSlot(n: nat, e: nat)
    requires IsSide(n, e)
    ensures IsFace(n, FaceOf(e)) && !IsFace(n, e)
    ensures e == FaceOf(e) + 1 || e == FaceOf(e) + 2 || e == FaceOf(e) + 3
    ensures e == FaceOf(e) + e % 4 && 1 <= e % 4 <= 3
  {
  }

  // ---------- shared sides ----------

  /** Side `e` is shared with the face of side `pair[e]`. */
  ghost predicate Mates(faces: seq<Face>, pair: seq<nat>, e: nat) {
    && IsSide(|faces|, e) && |pair| == 4 * |faces| && IsSide(|faces|, pair[e]) && pair[pair[e]] == e
    && FaceOf(pair[e]) != FaceOf(e) && Inverse(SideOf(faces, e), SideOf(faces, pair[e]))
  }

  /** A side that is free or used is shared, and as free or used as its mate; no side is both. */
  ghost predicate MateOk(faces: seq<Face>, pair: seq<nat>, valid: seq<bool>, used: seq<bool>, e: nat) {
    && |valid| == |used| == 4 * |faces| && IsSide(|faces|, e)
    && ((valid[e] || used[e]) ==>
      Mates(faces, pair, e) && valid[pair[e]] == valid[e] && used[pair[e]] == used[e] && !(valid[e] && used[e]))
  }

  ghost predicate MatesOk(faces: seq<Face>, pair: seq<nat>, valid: seq<bool>, used: seq<bool>) {
    && |pair| == |valid| == |used| == 4 * |faces|
    && forall e: nat {:trigger MateOk(faces, pair, valid, used, e)} | IsSide(|faces|, e) :: MateOk(faces, pair, valid, used, e)
  }

  function Bit(b: bool): (n: nat) {
    if b then 1 else 0
  }

  /** Degrees count used sides, stay at most two, and a face of degree two is out: it and its sides are not free. */
  ghost predicate DegreeOk(n: nat, valid: seq<bool>, used: seq<bool>, deg: seq<nat>, f: nat) {
    && IsFace(n, f) && |valid| == |used| == |deg| == 4 * n
    && deg[f] == Bit(used[f + 1]) + Bit(used[f + 2]) + Bit(used[f + 3]) && deg[f] <= 2
    && (valid[f] <==> deg[f] <= 1)
    && (deg[f] == 2 ==> !valid[f + 1] && !valid[f + 2] && !valid[f + 3])
  }

  ghost predicate DegreesOk(n: nat, valid: seq<bool>, used: seq<bool>, deg: seq<nat>) {
    && |valid| == |used| == |deg| == 4 * n
    && forall f: nat {:trigger DegreeOk(n, valid, used, deg, f)} | IsFace(n, f) :: DegreeOk(n, valid, used, deg, f)
  }

  // ---------- paths of faces ----------

  /** What the stripper knows of the paths: other ends, used sides, degrees; and, beside it, the paths themselves, from
      each of their ends. */
  datatype Chains = Chains(pair: seq<nat>, used: seq<bool>, deg: seq<nat>, path: seq<seq<nat>>)

  ghost predicate Shaped(n: nat, c: Chains) {
    |c.pair| == |c.used| == |c.deg| == |c.path| == 4 * n
  }

  /** A face at the end of its path. */
  ghost predicate End(n: nat, c: Chains, f: nat) {
    Shaped(n, c) && IsFace(n, f) && c.deg[f] <= 1
  }

  /** Faces g and h share a used side. */
  ghost predicate Linked(c: Chains, g: nat, h: nat) {
    exists k: nat {:trigger LinkedBy(c, g, h, k)} :: LinkedBy(c, g, h, k)
  }

  ghost predicate LinkedBy(c: Chains, g: nat, h: nat, k: nat) {
    1 <= k <= 3 && g + k < |c.used| == |c.pair| && c.used[g + k] && FaceOf(c.pair[g + k]) == h
  }

  /** The path from the end f to the other end, which `pair` names. */
  ghost predicate PathOk(n: nat, c: Chains, f: nat) {
    && End(n, c, f)
    && c.path[f] != [] && c.path[f][0] == f && c.path[f][|c.path[f]| - 1] == c.pair[f]
    && End(n, c, c.pair[f]) && c.pair[c.pair[f]] == f && |c.path[c.pair[f]]| == |c.path[f]|
    && (c.pair[f] == f <==> c.deg[f] == 0) && (c.pair[f] == f <==> |c.path[f]| == 1)
    && (forall i {:trigger StepOk(n, c, f, i)} | 0 <= i < |c.path[f]| - 1 :: StepOk(n, c, f, i))
  }

  /** Inner faces have both their neighbours by used sides. */
  ghost predicate StepOk(n: nat, c: Chains, f: nat, i: int) {
    && Shaped(n, c) && f < |c.path| && 0 <= i < |c.path[f]| - 1 && Linked(c, c.path[f][i], c.path[f][i + 1])
    && (i > 0 ==> IsFace(n, c.path[f][i]) && c.deg[c.path[f][i]] == 2)
  }

  /** Paths from f and g meet only as one and the same path, read from its one or its other end. */
  ghost predicate Apart(n: nat, c: Chains, f: nat, g: nat) {
    && Shaped(n, c) && f < 4 * n && g < 4 * n
    && forall i, j {:trigger c.path[f][i], c.path[g][j]} | 0 <= i < |c.path[f]| && 0 <= j < |c.path[g]| :: Meet(c, f, i, g, j)
  }

  ghost predicate Meet(c: Chains, f: nat, i: int, g: nat, j: int)
    requires f < |c.path| && g < |c.path| && f < |c.pair| && 0 <= i < |c.path[f]| && 0 <= j < |c.path[g]|
  {
    c.path[f][i] == c.path[g][j] <==> (g == f && i == j) || (g == c.pair[f] && i + j == |c.path[f]| - 1)
  }

  ghost predicate OnSomePath(n: nat, c: Chains, h: nat) {
    exists f: nat {:trigger OnPath(n, c, f, h)} :: OnPath(n, c, f, h)
  }

  ghost predicate OnPath(n: nat, c: Chains, f: nat, h: nat) {
    End(n, c, f) && h in c.path[f]
  }

  /** The used sides join the faces to simple paths without common faces, which between them hold every face. */
  ghost predicate Forest(n: nat, c: Chains) {
    && Shaped(n, c)
    && (forall f: nat {:trigger PathOk(n, c, f)} | End(n, c, f) :: PathOk(n, c, f))
    && (forall f: nat, g: nat {:trigger Apart(n, c, f, g)} | End(n, c, f) && End(n, c, g) :: Apart(n, c, f, g))
    && (forall h: nat {:trigger OnSomePath(n, c, h)} | IsFace(n, h) :: OnSomePath(n, c, h))
  }

  // ---------- joining two paths ----------

  /** Faces f1 and f2, ends of different paths, share the free sides e1 and e2. */
  ghost predicate Joinable(n: nat, c: Chains, e1: nat, e2: nat) {
    && Forest(n, c) && IsSide(n, e1) && IsSide(n, e2) && c.pair[e1] == e2 && c.pair[e2] == e1
    && End(n, c, FaceOf(e1)) && End(n, c, FaceOf(e2)) && FaceOf(e1) != FaceOf(e2) && c.pair[FaceOf(e1)] != FaceOf(e2)
  }

  /** Both sides used, the two paths one, and their far ends each other's. */
  ghost function Join(n: nat, c: Chains, e1: nat, e2: nat): (d: Chains)
    requires Joinable(n, c, e1, e2)
  {
    var f1, f2 := FaceOf(e1), FaceOf(e2);
    JoinIn(n, c, f1, f2);
    var a, b := c.pair[f1], c.pair[f2];
    Chains(c.pair[b := a][a := b], c.used[e1 := true][e2 := true],
          c.deg[f1 := c.deg[f1] + 1][f2 := c.deg[f2] + 1],
          c.path[a := c.path[a] + c.path[f2]][b := c.path[b] + c.path[f1]])
  }

  /** Four different ends, but for paths of one face. */
  lemma JoinIn(n: nat, c: Chains, f1: nat, f2: nat)
    requires Forest(n, c) && End(n, c, f1) && End(n, c, f2) && f1 != f2 && c.pair[f1] != f2
    ensures PathOk(n, c, f1) && PathOk(n, c, f2) && PathOk(n, c, c.pair[f1]) && PathOk(n, c, c.pair[f2])
    ensures c.pair[f1] != c.pair[f2] && c.pair[f2] != f1
  {
    assert PathOk(n, c, f1) && PathOk(n, c, f2);
    assert PathOk(n, c, c.pair[f1]) && PathOk(n, c, c.pair[f2]);
  }

  /** Joining from the other side is the same. */
  lemma JoinSymmetric(n: nat, c: Chains, e1: nat, e2: nat)
    requires Joinable(n, c, e1, e2)
    ensures Joinable(n, c, e2, e1) && Join(n, c, e1, e2) == Join(n, c, e2, e1)
  {
    JoinIn(n, c, FaceOf(e1), FaceOf(e2));
  }

  /** What was linked stays linked: used sides and the pairs of sides stay. */
  lemma LinkedStays(n: nat, c: Chains, d: Chains, g: nat, h: nat)
    requires Shaped(n, c) && Shaped(n, d) && IsFace(n, g) && Linked(c, g, h)
    requires forall e: nat | IsSide(n, e) && c.used[e] :: d.used[e] && d.pair[e] == c.pair[e]
    ensures Linked(d, g, h)
  {
    var k: nat :| LinkedBy(c, g, h, k);
    assert LinkedBy(d, g, h, k);
  }

  lemma JoinShape(n: nat, c: Chains, e1: nat, e2: nat)
    requires Joinable(n, c, e1, e2)
    ensures var d, f1, f2 := Join(n, c, e1, e2), FaceOf(e1), FaceOf(e2);
      && Shaped(n, d) && Shaped(n, c) && f1 < 4 * n && f2 < 4 * n && c.pair[f1] < 4 * n && e1 < 4 * n
      && d.path[c.pair[f1]] == c.path[c.pair[f1]] + c.path[f2]
      && d.used[e1] && d.pair[e1] == e2 && d.deg[f1] == c.deg[f1] + 1 && d.deg[f2] == c.deg[f2] + 1
      && forall h: nat | h < 4 * n && h != f1 && h != f2 :: d.deg[h] == c.deg[h]
  {
    JoinIn(n, c, FaceOf(e1), FaceOf(e2));
  }

  lemma JoinSides(n: nat, c: Chains, e1: nat, e2: nat)
    requires Joinable(n, c, e1, e2)
    ensures var d := Join(n, c, e1, e2);
      Shaped(n, d) && Shaped(n, c) && forall e: nat | IsSide(n, e) && c.used[e] :: d.used[e] && d.pair[e] == c.pair[e]
  {
    JoinIn(n, c, FaceOf(e1), FaceOf(e2));
  }

  /** A step of one path is one of another that runs the same way there. */
  lemma StepCarried(n: nat, c: Chains, d: Chains, f: nat, i: nat, a: nat, j: nat)
    requires Shaped(n, c) && Shaped(n, d) && StepOk(n, c, f, i) && a < 4 * n && j < |d.path[a]| - 1
    requires d.path[a][j] == c.path[f][i] && d.path[a][j + 1] == c.path[f][i + 1] && IsFace(n, c.path[f][i])
    requires forall e: nat | IsSide(n, e) && c.used[e] :: d.used[e] && d.pair[e] == c.pair[e]
    requires j > 0 ==> d.deg[c.path[f][i]] == 2
    ensures StepOk(n, d, a, j)
  {
    hide Linked, Aligned;
    LinkedStays(n, c, d, c.path[f][i], c.path[f][i + 1]);
  }

  /** The steps of the path from the far end of f1's path after the join: those of its path, the joined sides, and those of
      f2's path. */
  lemma JoinedStep(n: nat, c: Chains, d: Chains, e1: nat, e2: nat, a: nat, i: nat)
    requires Joinable(n, c, e1, e2) && d == Join(n, c, e1, e2) && a == c.pair[FaceOf(e1)] && a < |d.path| && i < |d.path[a]| - 1
    ensures StepOk(n, d, a, i)
  {
    JoinShape(n, c, e1, e2);
    JoinSides(n, c, e1, e2);
    var f1, f2 := FaceOf(e1), FaceOf(e2);
    JoinIn(n, c, f1, f2);
    hide Forest, Join, Aligned, Linked, FaceOf;
    var l := |c.path[a]|;
    if i < l - 1 {
      assert StepOk(n, c, a, i);
      StepCarried(n, c, d, a, i, a, i);
    } else if i >= l {
      assert StepOk(n, c, f2, i - l);
      StepCarried(n, c, d, f2, i - l, a, i);
    } else {
      LinkedOver(n, d, e1, e2);
    }
  }

  lemma LinkedOver(n: nat, d: Chains, e1: nat, e2: nat)
    requires Shaped(n, d) && IsSide(n, e1) && e1 < 4 * n && d.used[e1] && d.pair[e1] == e2
    ensures Linked(d, FaceOf(e1), FaceOf(e2))
  {
    assert LinkedBy(d, FaceOf(e1), FaceOf(e2), e1 % 4);
  }

  lemma JoinedPath(n: nat, c: Chains, e1: nat, e2: nat)
    requires Joinable(n, c, e1, e2)
    ensures PathOk(n, Join(n, c, e1, e2), c.pair[FaceOf(e1)])
  {
    hide StepOk, Linked;
    var f1, f2, d := FaceOf(e1), FaceOf(e2), Join(n, c, e1, e2);
    JoinIn(n, c, f1, f2);
    var a := c.pair[f1];
    forall i | 0 <= i < |d.path[a]| - 1 ensures StepOk(n, d, a, i) {
      JoinedStep(n, c, d, e1, e2, a, i);
    }
  }

  /** Other paths stay. */
  lemma OtherPath(n: nat, c: Chains, e1: nat, e2: nat, f: nat)
    requires Joinable(n, c, e1, e2) && End(n, Join(n, c, e1, e2), f)
    requires f != c.pair[FaceOf(e1)] && f != c.pair[FaceOf(e2)]
    ensures PathOk(n, c, f) && PathOk(n, Join(n, c, e1, e2), f)
    ensures f != FaceOf(e1) && f != FaceOf(e2) && Join(n, c, e1, e2).path[f] == c.path[f] && Join(n, c, e1, e2).pair[f] == c.pair[f]
  {
    var f1, f2, d := FaceOf(e1), FaceOf(e2), Join(n, c, e1, e2);
    JoinIn(n, c, f1, f2);
    assert PathOk(n, c, f) && PathOk(n, c, c.pair[f]);
    forall i | 0 <= i < |d.path[f]| - 1 ensures StepOk(n, d, f, i) {
      assert StepOk(n, c, f, i);
      if i == 0 { assert c.path[f][i] == f; }
      LinkedStays(n, c, d, c.path[f][i], c.path[f][i + 1]);
    }
  }

  /** The joined path, from its two ends, and itself. */
  lemma ApartJoined(n: nat, c: Chains, e1: nat, e2: nat)
    requires Joinable(n, c, e1, e2)
    ensures Apart(n, Join(n, c, e1, e2), c.pair[FaceOf(e1)], c.pair[FaceOf(e1)])
    ensures Apart(n, Join(n, c, e1, e2), c.pair[FaceOf(e1)], c.pair[FaceOf(e2)])
  {
    var f1, f2, d := FaceOf(e1), FaceOf(e2), Join(n, c, e1, e2);
    JoinIn(n, c, f1, f2);
    var a, b := c.pair[f1], c.pair[f2];
    assert Apart(n, c, a, a) && Apart(n, c, a, f2) && Apart(n, c, f2, f2) && Apart(n, c, f2, a);
    assert Apart(n, c, a, b) && Apart(n, c, a, f1) && Apart(n, c, f2, b) && Apart(n, c, f2, f1);
    var l, m := |c.path[a]|, |c.path[b]|;
    forall i, j | 0 <= i < |d.path[a]| && 0 <= j < |d.path[a]| ensures Meet(d, a, i, a, j) {
      if i < l && j < l { assert Meet(c, a, i, a, j); }
      else if i < l { assert Meet(c, a, i, f2, j - l); }
      else if j < l { assert Meet(c, f2, i - l, a, j); }
      else { assert Meet(c, f2, i - l, f2, j - l); }
    }
    forall i, j | 0 <= i < |d.path[a]| && 0 <= j < |d.path[b]| ensures Meet(d, a, i, b, j) {
      if i < l && j < m { assert Meet(c, a, i, b, j); }
      else if i < l { assert Meet(c, a, i, f1, j - m); }
      else if j < m { assert Meet(c, f2, i - l, b, j); }
      else { assert Meet(c, f2, i - l, f1, j - m); }
    }
  }

  /** The joined path and another. */
  lemma ApartOther(n: nat, c: Chains, e1: nat, e2: nat, g: nat)
    requires Joinable(n, c, e1, e2) && End(n, Join(n, c, e1, e2), g)
    requires g != c.pair[FaceOf(e1)] && g != c.pair[FaceOf(e2)]
    ensures Apart(n, Join(n, c, e1, e2), c.pair[FaceOf(e1)], g) && Apart(n, Join(n, c, e1, e2), g, c.pair[FaceOf(e1)])
  {
    var f1, f2, d := FaceOf(e1), FaceOf(e2), Join(n, c, e1, e2);
    JoinIn(n, c, f1, f2);
    OtherPath(n, c, e1, e2, g);
    var a := c.pair[f1];
    var l := |c.path[a]|;
    assert Apart(n, c, a, g) && Apart(n, c, f2, g) && Apart(n, c, g, a) && Apart(n, c, g, f2);
    forall i, j | 0 <= i < |d.path[a]| && 0 <= j < |d.path[g]| ensures Meet(d, a, i, g, j) && Meet(d, g, j, a, i) {
      if i < l { assert Meet(c, a, i, g, j) && Meet(c, g, j, a, i); }
      else { assert Meet(c, f2, i - l, g, j) && Meet(c, g, j, f2, i - l); }
    }
  }

  lemma ApartOthers(n: nat, c: Chains, e1: nat, e2: nat, f: nat, g: nat)
    requires Joinable(n, c, e1, e2) && End(n, Join(n, c, e1, e2), f) && End(n, Join(n, c, e1, e2), g)
    requires f != c.pair[FaceOf(e1)] && f != c.pair[FaceOf(e2)] && g != c.pair[FaceOf(e1)] && g != c.pair[FaceOf(e2)]
    ensures Apart(n, Join(n, c, e1, e2), f, g)
  {
    var d := Join(n, c, e1, e2);
    OtherPath(n, c, e1, e2, f);
    OtherPath(n, c, e1, e2, g);
    assert Apart(n, c, f, g);
    forall i, j | 0 <= i < |d.path[f]| && 0 <= j < |d.path[g]| ensures Meet(d, f, i, g, j) {
      assert Meet(c, f, i, g, j);
    }
  }

  lemma JoinCovers(n: nat, c: Chains, e1: nat, e2: nat, h: nat)
    requires Joinable(n, c, e1, e2) && IsFace(n, h)
    ensures OnSomePath(n, Join(n, c, e1, e2), h)
  {
    var f1, f2, d := FaceOf(e1), FaceOf(e2), Join(n, c, e1, e2);
    JoinIn(n, c, f1, f2);
    var a, b := c.pair[f1], c.pair[f2];
    assert OnSomePath(n, c, h);
    var f: nat :| OnPath(n, c, f, h);
    JoinedPath(n, c, e1, e2);
    JoinedPath(n, c, e2, e1) by { JoinSymmetric(n, c, e1, e2); }
    JoinSymmetric(n, c, e1, e2);
    if f == a || f == f2 { assert OnPath(n, d, a, h); }
    else if f == b || f == f1 { assert OnPath(n, d, b, h); }
    else { assert OnPath(n, d, f, h); }
  }

  /** Joining two different paths at their ends leaves a forest of paths: no cycle is closed. */
  lemma JoinForest(n: nat, c: Chains, e1: nat, e2: nat)
    requires Joinable(n, c, e1, e2)
    ensures Forest(n, Join(n, c, e1, e2))
  {
    hide PathOk, Apart, OnSomePath;
    var d, a, b := Join(n, c, e1, e2), c.pair[FaceOf(e1)], c.pair[FaceOf(e2)];
    JoinSymmetric(n, c, e1, e2);
    JoinedPath(n, c, e1, e2);
    JoinedPath(n, c, e2, e1);
    ApartJoined(n, c, e1, e2);
    ApartJoined(n, c, e2, e1);
    forall f: nat | End(n, d, f) ensures PathOk(n, d, f) {
      if f != a && f != b { OtherPath(n, c, e1, e2, f); }
    }
    forall f: nat, g: nat | End(n, d, f) && End(n, d, g) ensures Apart(n, d, f, g) {
      if f != a && f != b {
        ApartFrom(n, c, e1, e2, f, g);
      } else if g != a && g != b {
        ApartOther(n, c, e1, e2, g);
        ApartOther(n, c, e2, e1, g);
      }
    }
    forall h: nat | IsFace(n, h) ensures OnSomePath(n, d, h) {
      JoinCovers(n, c, e1, e2, h);
    }
  }

  lemma ApartFrom(n: nat, c: Chains, e1: nat, e2: nat, f: nat, g: nat)
    requires Joinable(n, c, e1, e2) && End(n, Join(n, c, e1, e2), f) && End(n, Join(n, c, e1, e2), g)
    requires f != c.pair[FaceOf(e1)] && f != c.pair[FaceOf(e2)]
    ensures Apart(n, Join(n, c, e1, e2), f, g)
  {
    hide Apart, PathOk, OnSomePath;
    JoinSymmetric(n, c, e1, e2);
    if g == c.pair[FaceOf(e1)] { ApartOther(n, c, e1, e2, f); }
    else if g == c.pair[FaceOf(e2)] { ApartOther(n, c, e2, e1, f); }
    else { ApartOthers(n, c, e1, e2, f, g); }
  }

  // ---------- free sides ----------

  /** Slots still free. */
  ghost function Live(valid: seq<bool>): (s: set<nat>) {
    set w: nat | w < |valid| && valid[w]
  }

  /** `unvalidate` of a side and its mate. */
  function Cut(valid: seq<bool>, pair: seq<nat>, e: nat): (r: seq<bool>)
    requires e < |valid| == |pair| && pair[e] < |valid|
  {
    valid[e := false][pair[e] := false]
  }

  lemma CutOk(faces: seq<Face>, c: Chains, valid: seq<bool>, e: nat)
    requires MatesOk(faces, c.pair, valid, c.used) && IsSide(|faces|, e) && valid[e]
    ensures Mates(faces, c.pair, e) && MatesOk(faces, c.pair, Cut(valid, c.pair, e), c.used)
    ensures Live(Cut(valid, c.pair, e)) < Live(valid)
  {
    assert MateOk(faces, c.pair, valid, c.used, e);
    var r := Cut(valid, c.pair, e);
    forall d: nat | IsSide(|faces|, d) ensures MateOk(faces, c.pair, r, c.used, d) {
      assert MateOk(faces, c.pair, valid, c.used, d);
    }
    assert e in Live(valid) && e !in Live(r);
  }

  /** Slot w is face f, one of its sides, or the mate of one. */
  ghost predicate Touches(n: nat, pair: seq<nat>, f: nat, w: nat) {
    |pair| == 4 * n && (w == f || (IsSide(n, w) && (FaceOf(w) == f || FaceOf(pair[w]) == f)))
  }

  /** Face f is out, and its sides with their mates; the rest is as before. */
  ghost predicate Detached(n: nat, pair: seq<nat>, valid: seq<bool>, r: seq<bool>, f: nat) {
    |valid| == |pair| == |r| == 4 * n && forall w: nat | w < |valid| :: r[w] <==> valid[w] && !Touches(n, pair, f, w)
  }

  /** ... as far as side `i` of f. */
  ghost predicate DetachedTo(n: nat, pair: seq<nat>, valid: seq<bool>, r: seq<bool>, f: nat, i: nat) {
    && |valid| == |pair| == |r| == 4 * n
    && forall w: nat | w < |valid| :: r[w] <==> valid[w] && w != f && !TouchesTo(n, pair, f, i, w)
  }

  ghost predicate TouchesTo(n: nat, pair: seq<nat>, f: nat, i: nat, w: nat) {
    |pair| == 4 * n && IsSide(n, w) && (f < w <= f + i || f < pair[w] <= f + i)
  }

  lemma DetachNext(faces: seq<Face>, c: Chains, valid: seq<bool>, r: seq<bool>, f: nat, i: nat)
    requires IsFace(|faces|, f) && i < 3 && MatesOk(faces, c.pair, r, c.used) && MatesOk(faces, c.pair, valid, c.used)
    requires DetachedTo(|faces|, c.pair, valid, r, f, i)
    ensures r[f + i + 1] ==> c.pair[f + i + 1] < |r| && DetachedTo(|faces|, c.pair, valid, Cut(r, c.pair, f + i + 1), f, i + 1)
    ensures !r[f + i + 1] ==> DetachedTo(|faces|, c.pair, valid, r, f, i + 1)
  {
    hide FaceOf, Aligned;
    FaceSlots(|faces|, f);
    var e := f + i + 1;
    assert MateOk(faces, c.pair, r, c.used, e) && MateOk(faces, c.pair, valid, c.used, e);
    forall w: nat | w < |valid| && valid[w] ensures TouchesTo(|faces|, c.pair, f, i + 1, w) <==>
      (TouchesTo(|faces|, c.pair, f, i, w) || w == e || (IsSide(|faces|, w) && valid[e] && w == c.pair[e]))
    {
      if IsSide(|faces|, w) { assert MateOk(faces, c.pair, valid, c.used, w); }
    }
  }

  lemma DetachEnd(faces: seq<Face>, c: Chains, valid: seq<bool>, r: seq<bool>, f: nat)
    requires IsFace(|faces|, f) && MatesOk(faces, c.pair, valid, c.used) && DetachedTo(|faces|, c.pair, valid, r, f, 3)
    ensures Detached(|faces|, c.pair, valid, r, f)
  {
    forall w: nat | w < |valid| && valid[w] ensures Touches(|faces|, c.pair, f, w) <==> w == f || TouchesTo(|faces|, c.pair, f, 3, w) {
      if IsSide(|faces|, w) { assert MateOk(faces, c.pair, valid, c.used, w); }
    }
  }

  // ---------- applying an edge ----------

  /** The free slots after `apply_edge`: not the side and its mate, and nothing at a face that now has degree two. */
  ghost predicate Applied(n: nat, d: Chains, valid: seq<bool>, r: seq<bool>, e1: nat, e2: nat) {
    && Shaped(n, d) && |valid| == |r| == 4 * n && IsSide(n, e1) && IsSide(n, e2)
    && forall w: nat | w < 4 * n :: r[w] <==> (valid[w] && w != e1 && w != e2 && !Out(n, d, FaceOf(e1), w) && !Out(n, d, FaceOf(e2), w))
  }

  ghost predicate Out(n: nat, d: Chains, f: nat, w: nat) {
    f < |d.deg| && d.deg[f] == 2 && Touches(n, d.pair, f, w)
  }

  /** Every free side has its face queued, but for face `t`. */
  ghost predicate Queued(n: nat, valid: seq<bool>, heap: map<nat, nat>, t: nat) {
    |valid| == 4 * n && forall e: nat | IsSide(n, e) && valid[e] :: FaceOf(e) in heap || FaceOf(e) == t
  }

  ghost predicate AllQueued(n: nat, valid: seq<bool>, heap: map<nat, nat>) {
    |valid| == 4 * n && forall e: nat | IsSide(n, e) && valid[e] :: FaceOf(e) in heap
  }

  /** The queue holds faces that are free, with positive values; but for those in `but`. */
  ghost predicate QueueOk(n: nat, valid: seq<bool>, heap: map<nat, nat>, but: set<nat>) {
    |valid| == 4 * n && forall f | f in heap && f !in but :: IsFace(n, f) && valid[f] && heap[f] > 0
  }

  /** A shared side that is not free is used, or at an inner face, or joins the two ends of one path. */
  ghost predicate SettledSide(faces: seq<Face>, c: Chains, valid: seq<bool>, e: nat) {
    Shaped(|faces|, c) && |valid| == 4 * |faces| &&
    (Mates(faces, c.pair, e) && !valid[e] ==>
      c.used[e] || c.deg[FaceOf(e)] == 2 || c.deg[FaceOf(c.pair[e])] == 2 || c.pair[FaceOf(e)] == FaceOf(c.pair[e]))
  }

  ghost predicate Settled(faces: seq<Face>, c: Chains, valid: seq<bool>) {
    forall e: nat {:trigger SettledSide(faces, c, valid, e)} | IsSide(|faces|, e) :: SettledSide(faces, c, valid, e)
  }

  /** The state between two steps. */
  ghost predicate Growing(faces: seq<Face>, c: Chains, valid: seq<bool>) {
    && Forest(|faces|, c) && MatesOk(faces, c.pair, valid, c.used) && DegreesOk(|faces|, valid, c.used, c.deg)
    && Settled(faces, c, valid) && AllMated(faces, c.pair)
  }

  /** A free side whose faces are not the two ends of one path can be applied. */
  lemma FreeJoinable(faces: seq<Face>, c: Chains, valid: seq<bool>, e: nat)
    requires Growing(faces, c, valid) && IsSide(|faces|, e) && valid[e]
    ensures Mates(faces, c.pair, e) && valid[c.pair[e]] && End(|faces|, c, FaceOf(e)) && End(|faces|, c, FaceOf(c.pair[e]))
    ensures c.pair[FaceOf(e)] != FaceOf(c.pair[e]) ==> Joinable(|faces|, c, e, c.pair[e])
  {
    hide FaceOf, Aligned;
    assert MateOk(faces, c.pair, valid, c.used, e) && MateOk(faces, c.pair, valid, c.used, c.pair[e]);
    SideSlot(|faces|, e);
    SideSlot(|faces|, c.pair[e]);
    hide MatesOk, Settled;
    assert DegreeOk(|faces|, valid, c.used, c.deg, FaceOf(e)) && DegreeOk(|faces|, valid, c.used, c.deg, FaceOf(c.pair[e]));
  }

  /** Using a shared side keeps sides and mates in step. */
  lemma UsedMates(faces: seq<Face>, c: Chains, valid: seq<bool>, e: nat)
    requires MatesOk(faces, c.pair, valid, c.used) && IsSide(|faces|, e) && valid[e]
    ensures Mates(faces, c.pair, e) && MatesOk(faces, c.pair, Cut(valid, c.pair, e), c.used[e := true][c.pair[e] := true])
    ensures Live(Cut(valid, c.pair, e)) < Live(valid)
  {
    CutOk(faces, c, valid, e);
    var r, used := Cut(valid, c.pair, e), c.used[e := true][c.pair[e] := true];
    forall d: nat | IsSide(|faces|, d) ensures MateOk(faces, c.pair, r, used, d) {
      assert MateOk(faces, c.pair, valid, c.used, d);
    }
  }

  lemma PairOfSidesStays(faces: seq<Face>, pair: seq<nat>, pair': seq<nat>, valid: seq<bool>, used: seq<bool>)
    requires MatesOk(faces, pair, valid, used) && |pair'| == |pair|
    requires forall e: nat {:trigger pair'[e]} | IsSide(|faces|, e) :: pair'[e] == pair[e]
    ensures MatesOk(faces, pair', valid, used)
  {
    forall e: nat | IsSide(|faces|, e) ensures MateOk(faces, pair', valid, used, e) {
      assert MateOk(faces, pair, valid, used, e);
    }
  }

  /** Cutting the side and detaching the faces that were ends of longer paths leaves free what `Applied` says. */
  lemma AppliedFrom(n: nat, c: Chains, valid: seq<bool>, v1: seq<bool>, v2: seq<bool>, r: seq<bool>, e1: nat, e2: nat)
    requires Joinable(n, c, e1, e2) && |valid| == 4 * n && v1 == valid[e1 := false][e2 := false] && |v2| == |r| == 4 * n
    requires if c.pair[FaceOf(e1)] != FaceOf(e1) then Detached(n, c.pair, v1, v2, FaceOf(e1)) else v2 == v1
    requires if c.pair[FaceOf(e2)] != FaceOf(e2) then Detached(n, c.pair, v2, r, FaceOf(e2)) else r == v2
    ensures Applied(n, Join(n, c, e1, e2), valid, r, e1, e2)
  {
    hide Forest, FaceOf, Aligned, Touches, Join;
    var d := Join(n, c, e1, e2);
    JoinIn(n, c, FaceOf(e1), FaceOf(e2));
    JoinSlots(n, c, e1, e2);
    forall w: nat | w < 4 * n ensures Touches(n, d.pair, FaceOf(e1), w) == Touches(n, c.pair, FaceOf(e1), w)
      && Touches(n, d.pair, FaceOf(e2), w) == Touches(n, c.pair, FaceOf(e2), w)
    {
      TouchesSame(n, c.pair, d.pair, FaceOf(e1), w);
      TouchesSame(n, c.pair, d.pair, FaceOf(e2), w);
    }
  }

  lemma TouchesSame(n: nat, pair: seq<nat>, pair': seq<nat>, f: nat, w: nat)
    requires |pair| == |pair'| == 4 * n && (IsSide(n, w) ==> pair'[w] == pair[w])
    ensures Touches(n, pair', f, w) == Touches(n, pair, f, w)
  {
  }

  /** A face the join does not touch. */
  lemma DegreeElsewhere(n: nat, c: Chains, valid: seq<bool>, r: seq<bool>, e1: nat, e2: nat, f: nat)
    requires Joinable(n, c, e1, e2) && DegreeOk(n, valid, c.used, c.deg, f) && f != FaceOf(e1) && f != FaceOf(e2)
    requires Applied(n, Join(n, c, e1, e2), valid, r, e1, e2)
    ensures var d := Join(n, c, e1, e2); DegreeOk(n, r, d.used, d.deg, f)
  {
    hide Forest, Touches, FaceOf, Aligned;
    FaceTouches(n, Join(n, c, e1, e2).pair, f, FaceOf(e1));
    FaceTouches(n, Join(n, c, e1, e2).pair, f, FaceOf(e2));
    JoinSlots(n, c, e1, e2);
    FaceSlots(n, f);
  }

  ghost predicate Joined(n: nat, c: Chains, d: Chains, e1: nat, e2: nat) {
    && Shaped(n, c) && Shaped(n, d)
    && (forall w: nat {:trigger d.used[w]} | w < 4 * n :: d.used[w] == (c.used[w] || w == e1 || w == e2))
    && (forall w: nat {:trigger d.deg[w]} | w < 4 * n :: d.deg[w] == c.deg[w] + (if w == FaceOf(e1) || w == FaceOf(e2) then 1 else 0))
    && (forall w: nat {:trigger d.pair[w]} | IsSide(n, w) :: d.pair[w] == c.pair[w])
  }

  lemma JoinSlots(n: nat, c: Chains, e1: nat, e2: nat)
    requires Joinable(n, c, e1, e2)
    ensures Shaped(n, c) && Joined(n, c, Join(n, c, e1, e2), e1, e2)
    ensures FaceOf(e1) != FaceOf(e2) && IsFace(n, FaceOf(e1)) && IsFace(n, FaceOf(e2))
  {
    hide FaceOf, Aligned;
    SideSlot(n, e1);
    SideSlot(n, e2);
    JoinIn(n, c, FaceOf(e1), FaceOf(e2));
    FaceSlots(n, c.pair[FaceOf(e1)]);
    FaceSlots(n, c.pair[FaceOf(e2)]);
  }

  /** A face joined over side e1. */
  lemma DegreeJoined(n: nat, c: Chains, valid: seq<bool>, r: seq<bool>, e1: nat, e2: nat)
    requires Joinable(n, c, e1, e2) && DegreeOk(n, valid, c.used, c.deg, FaceOf(e1)) && !c.used[e1]
    requires Applied(n, Join(n, c, e1, e2), valid, r, e1, e2)
    ensures var d := Join(n, c, e1, e2); DegreeOk(n, r, d.used, d.deg, FaceOf(e1))
  {
    hide Forest, Touches, FaceOf, Aligned;
    JoinSlots(n, c, e1, e2);
    FaceTouches(n, Join(n, c, e1, e2).pair, FaceOf(e1), FaceOf(e2));
    FaceSlots(n, FaceOf(e1));
    SideSlot(n, e1);
  }

  lemma FaceTouches(n: nat, pair: seq<nat>, f: nat, g: nat)
    requires |pair| == 4 * n && IsFace(n, f) && IsFace(n, g) && f != g
    ensures Touches(n, pair, f, f) && Touches(n, pair, f, f + 1) && Touches(n, pair, f, f + 2) && Touches(n, pair, f, f + 3) && !Touches(n, pair, g, f)
  {
  }

  lemma AppliedDegrees(faces: seq<Face>, c: Chains, valid: seq<bool>, r: seq<bool>, e1: nat, e2: nat)
    requires Joinable(|faces|, c, e1, e2) && MatesOk(faces, c.pair, valid, c.used) && valid[e1] && valid[e2]
    requires DegreesOk(|faces|, valid, c.used, c.deg)
    requires Applied(|faces|, Join(|faces|, c, e1, e2), valid, r, e1, e2)
    ensures var d := Join(|faces|, c, e1, e2); DegreesOk(|faces|, r, d.used, d.deg)
  {
    var n, d := |faces|, Join(|faces|, c, e1, e2);
    assert MateOk(faces, c.pair, valid, c.used, e1) && MateOk(faces, c.pair, valid, c.used, e2);
    hide Forest, MateOk, DegreeOk;
    JoinSymmetric(n, c, e1, e2);
    forall f: nat | IsFace(n, f) ensures DegreeOk(n, r, d.used, d.deg, f) {
      assert DegreeOk(n, valid, c.used, c.deg, f);
      if f == FaceOf(e1) { DegreeJoined(n, c, valid, r, e1, e2); }
      else if f == FaceOf(e2) { DegreeJoined(n, c, valid, r, e2, e1); }
      else { DegreeElsewhere(n, c, valid, r, e1, e2, f); }
    }
  }

  lemma SettledStays(faces: seq<Face>, c: Chains, valid: seq<bool>, r: seq<bool>, e1: nat, e2: nat, e: nat)
    requires Joinable(|faces|, c, e1, e2) && Applied(|faces|, Join(|faces|, c, e1, e2), valid, r, e1, e2)
    requires SettledSide(faces, c, valid, e) && IsSide(|faces|, e)
    ensures SettledSide(faces, Join(|faces|, c, e1, e2), r, e)
  {
    var n, d := |faces|, Join(|faces|, c, e1, e2);
    JoinIn(n, c, FaceOf(e1), FaceOf(e2));
    assert Mates(faces, d.pair, e) ==> Mates(faces, c.pair, e);
    hide Forest, Apart, OnSomePath;
  }

  lemma AppliedSettled(faces: seq<Face>, c: Chains, valid: seq<bool>, r: seq<bool>, e1: nat, e2: nat)
    requires Joinable(|faces|, c, e1, e2) && MatesOk(faces, c.pair, valid, c.used) && valid[e1] && valid[e2]
    requires DegreesOk(|faces|, valid, c.used, c.deg) && Settled(faces, c, valid)
    requires Applied(|faces|, Join(|faces|, c, e1, e2), valid, r, e1, e2)
    ensures Settled(faces, Join(|faces|, c, e1, e2), r)
  {
    hide Joinable, Applied, SettledSide, DegreesOk, MatesOk;
    forall e: nat | IsSide(|faces|, e) ensures SettledSide(faces, Join(|faces|, c, e1, e2), r, e) {
      assert SettledSide(faces, c, valid, e);
      SettledStays(faces, c, valid, r, e1, e2, e);
    }
  }

  // ---------- pairing the sides ----------

  /** Inverse sides in `seen` are paired and free, and no other side is free. */
  ghost predicate PairedIn(faces: seq<Face>, pair: seq<nat>, valid: seq<bool>, seen: set<nat>) {
    && |pair| == |valid| == 4 * |faces|
    && (forall e: nat {:trigger FreeOk(faces, pair, valid, seen, e)} | IsSide(|faces|, e) :: FreeOk(faces, pair, valid, seen, e))
    && (forall d: nat, e: nat {:trigger PairOk(faces, pair, valid, d, e)} | d in seen && e in seen :: PairOk(faces, pair, valid, d, e))
  }

  ghost predicate FreeOk(faces: seq<Face>, pair: seq<nat>, valid: seq<bool>, seen: set<nat>, e: nat) {
    && |pair| == |valid| == 4 * |faces| && IsSide(|faces|, e)
    && (valid[e] ==> e in seen && pair[e] in seen && IsSide(|faces|, pair[e]) && Inverse(SideOf(faces, e), SideOf(faces, pair[e])))
  }

  ghost predicate PairOk(faces: seq<Face>, pair: seq<nat>, valid: seq<bool>, d: nat, e: nat) {
    && |pair| == |valid| == 4 * |faces| && IsSide(|faces|, d) && IsSide(|faces|, e)
    && (Inverse(SideOf(faces, d), SideOf(faces, e)) ==> pair[d] == e && valid[d])
  }

  /** The sides of the first `m` faces, by their ends. */
  ghost predicate SidesKnown(faces: seq<Face>, edges: map<Edge, nat>, m: nat) {
    && m <= |faces|
    && (forall e: nat {:trigger SideOf(faces, e)} | IsSide(|faces|, e) && e < 4 * m :: SideOf(faces, e) in edges && edges[SideOf(faces, e)] == e)
    && (forall s | s in edges :: IsSide(|faces|, edges[s]) && edges[s] < 4 * m && SideOf(faces, edges[s]) == s)
  }

  /** No face is its own neighbour. */
  lemma NoSelfMate(faces: seq<Face>, d: nat, e: nat)
    requires ProperFaces(faces) && IsSide(|faces|, d) && IsSide(|faces|, e) && Inverse(SideOf(faces, d), SideOf(faces, e))
    ensures FaceOf(d) != FaceOf(e)
  {
    var i, j := d / 4, e / 4;
    assert FaceOf(d) == FaceOf(e) ==> i == j;
    assert !Degenerate(faces[i].v0, faces[i].v1, faces[i].v2);
  }

  ghost function SidesBelow(m: nat): (s: set<nat>) {
    set e: nat | e < 4 * m && e % 4 != 0
  }

  /** Pairing side `e` with its inverse, if that is known. */
  lemma PairStep(faces: seq<Face>, pair: seq<nat>, valid: seq<bool>, seen: set<nat>, edges: map<Edge, nat>, m: nat, e: nat)
    requires ProperFaces(faces) && PairedIn(faces, pair, valid, seen) && SidesKnown(faces, edges, m)
    requires IsSide(|faces|, e) && e < 4 * m && e !in seen && seen <= SidesBelow(m)
    requires forall d: nat | d in SidesBelow(m) && FaceOf(d) != FaceOf(e) :: d in seen
    ensures var key := (SideOf(faces, e).1, SideOf(faces, e).0);
      if key in edges then edges[key] < |pair| && PairedIn(faces, pair[e := edges[key]][edges[key] := e], valid[e := true][edges[key] := true], seen + {e})
      else PairedIn(faces, pair, valid, seen + {e})
  {
    var key := (SideOf(faces, e).1, SideOf(faces, e).0);
    if key in edges {
      PairFound(faces, pair, valid, seen, e, edges[key]);
    } else {
      forall d: nat | IsSide(|faces|, d) ensures FreeOk(faces, pair, valid, seen + {e}, d) {
        assert FreeOk(faces, pair, valid, seen, d);
      }
      forall c: nat, d: nat | c in seen + {e} && d in seen + {e} ensures PairOk(faces, pair, valid, c, d) {
        if c in seen && d in seen { assert PairOk(faces, pair, valid, c, d); }
        assert SideOf(faces, c) in edges && SideOf(faces, d) in edges;
      }
    }
  }

  lemma PairFound(faces: seq<Face>, pair: seq<nat>, valid: seq<bool>, seen: set<nat>, e: nat, g: nat)
    requires ProperFaces(faces) && PairedIn(faces, pair, valid, seen) && e !in seen
    requires IsSide(|faces|, e) && IsSide(|faces|, g) && Inverse(SideOf(faces, e), SideOf(faces, g)) && (FaceOf(g) != FaceOf(e) ==> g in seen)
    ensures PairedIn(faces, pair[e := g][g := e], valid[e := true][g := true], seen + {e})
  {
    var pair', valid', seen' := pair[e := g][g := e], valid[e := true][g := true], seen + {e};
    NoSelfMate(faces, e, g);
    forall d: nat | IsSide(|faces|, d) ensures FreeOk(faces, pair', valid', seen', d) {
      assert FreeOk(faces, pair, valid, seen, d);
    }
    forall c: nat, d: nat | c in seen' && d in seen' ensures PairOk(faces, pair', valid', c, d) {
      assert c in seen && d in seen ==> PairOk(faces, pair, valid, c, d);
      assert c in seen ==> PairOk(faces, pair, valid, c, c);
      assert d in seen ==> PairOk(faces, pair, valid, d, d);
    }
  }

  /** The slots of the first `m` faces name the faces themselves, and are free. */
  ghost predicate FacesSet(n: nat, pair: seq<nat>, valid: seq<bool>, m: nat) {
    |pair| == |valid| == 4 * n && forall f: nat {:trigger pair[f]} | IsFace(n, f) && f < 4 * m :: pair[f] == f && valid[f]
  }

  lemma KnownNext(faces: seq<Face>, edges: map<Edge, nat>, i: nat)
    requires ProperFaces(faces) && SidesKnown(faces, edges, i) && i < |faces|
    ensures var f := faces[i]; var edges' := edges[(f.v0, f.v1) := 4 * i + 3][(f.v1, f.v2) := 4 * i + 1][(f.v2, f.v0) := 4 * i + 2];
      SidesKnown(faces, edges', i + 1)
    ensures var f := faces[i]; (f.v0, f.v1) !in edges && (f.v1, f.v2) !in edges && (f.v2, f.v0) !in edges
  {
    hide FaceOf, Aligned, SideOf;
    var f := faces[i];
    FaceSides(faces, i);
    var edges' := edges[(f.v0, f.v1) := 4 * i + 3][(f.v1, f.v2) := 4 * i + 1][(f.v2, f.v0) := 4 * i + 2];
    forall e: nat | IsSide(|faces|, e) && e < 4 * (i + 1) ensures SideOf(faces, e) in edges' && edges'[SideOf(faces, e)] == e {
      if e >= 4 * i { SideIs(|faces|, e, i); }
    }
  }

  lemma SideIs(n: nat, e: nat, i: nat)
    requires IsSide(n, e) && 4 * i <= e < 4 * i + 4
    ensures e == 4 * i + 1 || e == 4 * i + 2 || e == 4 * i + 3
  {
    hide Aligned;
    FourAligned(i);
  }

  lemma FourAligned(i: nat)
    ensures Aligned(4 * i)
  {
  }

  lemma FaceIs(e: nat, i: nat)
    requires 4 * i <= e < 4 * i + 4
    ensures FaceOf(e) == 4 * i
  {
  }

  lemma FaceSides(faces: seq<Face>, i: nat)
    requires i < |faces|
    ensures IsFace(|faces|, 4 * i) && IsSide(|faces|, 4 * i + 1) && IsSide(|faces|, 4 * i + 2) && IsSide(|faces|, 4 * i + 3)
    ensures var f := faces[i]; SideOf(faces, 4 * i + 3) == (f.v0, f.v1) && SideOf(faces, 4 * i + 1) == (f.v1, f.v2) && SideOf(faces, 4 * i + 2) == (f.v2, f.v0)
  {
  }

  lemma BelowNext(m: nat)
    ensures SidesBelow(m + 1) == SidesBelow(m) + {4 * m + 3} + {4 * m + 1} + {4 * m + 2}
  {
  }

  lemma PairedFace(faces: seq<Face>, pair: seq<nat>, valid: seq<bool>, seen: set<nat>, i: nat)
    requires PairedIn(faces, pair, valid, seen) && FacesSet(|faces|, pair, valid, i) && i < |faces|
    ensures PairedIn(faces, pair[4 * i := 4 * i], valid[4 * i := true], seen)
    ensures FacesSet(|faces|, pair[4 * i := 4 * i], valid[4 * i := true], i + 1)
  {
    FaceSides(faces, i);
    var pair', valid' := pair[4 * i := 4 * i], valid[4 * i := true];
    forall e: nat | IsSide(|faces|, e) ensures FreeOk(faces, pair', valid', seen, e) {
      assert FreeOk(faces, pair, valid, seen, e);
    }
    forall d: nat, e: nat | d in seen && e in seen ensures PairOk(faces, pair', valid', d, e) {
      assert PairOk(faces, pair, valid, d, e);
    }
    forall f: nat | IsFace(|faces|, f) && f < 4 * (i + 1) ensures pair'[f] == f && valid'[f] {
      if f > 4 * i { FaceIs(f, i); }
    }
  }

  /** Pairs side `e` with its inverse, if that is known. */
  method PairSide(faces: seq<Face>, pair0: seq<nat>, valid0: seq<bool>, edges: map<Edge, nat>, e: nat, key: Edge, ghost seen: set<nat>, ghost m: nat)
    returns (pair: seq<nat>, valid: seq<bool>)
    requires ProperFaces(faces) && PairedIn(faces, pair0, valid0, seen) && SidesKnown(faces, edges, m)
    requires 1 <= m && FacesSet(|faces|, pair0, valid0, m - 1) && IsSide(|faces|, e) && e < 4 * m && e !in seen && seen <= SidesBelow(m) && Inverse(key, SideOf(faces, e))
    requires forall d: nat | d in SidesBelow(m) && FaceOf(d) != FaceOf(e) :: d in seen
    ensures PairedIn(faces, pair, valid, seen + {e}) && FacesSet(|faces|, pair, valid, m - 1)
  {
    hide FaceOf, Aligned, SideOf, PairedIn, ProperFaces;
    pair, valid := pair0, valid0;
    PairStep(faces, pair, valid, seen, edges, m, e);
    assert key == (SideOf(faces, e).1, SideOf(faces, e).0);
    if key in edges {
      var d := edges[key];
      assert IsSide(|faces|, d);
      pair := pair[e := d][d := e];
      valid := valid[e := true][d := true];
      forall f: nat | IsFace(|faces|, f) && f < 4 * (m - 1) ensures pair[f] == f && valid[f] { assert pair0[f] == f; }
    }
  }

  /** The pairing of the constructor: inverse sides are each other's, faces their own. */
  method PairUp(faces: seq<Face>) returns (pair: seq<nat>, valid: seq<bool>)
    requires ProperFaces(faces)
    ensures PairedIn(faces, pair, valid, SidesBelow(|faces|)) && FacesSet(|faces|, pair, valid, |faces|)
  {
    hide PairedIn, SidesKnown, FacesSet, ProperFaces, FaceOf, Aligned, SideOf;
    pair, valid := seq(4 * |faces|, _ => 0), seq(4 * |faces|, _ => false);
    var edges: map<Edge, nat> := map[];
    PairStart(faces, pair, valid);
    for i := 0 to |faces|
      invariant PairedIn(faces, pair, valid, SidesBelow(i)) && SidesKnown(faces, edges, i) && FacesSet(|faces|, pair, valid, i)
    {
      var f := faces[i];
      KnownNext(faces, edges, i);
      edges := edges[(f.v0, f.v1) := 4 * i + 3];
      edges := edges[(f.v1, f.v2) := 4 * i + 1];
      edges := edges[(f.v2, f.v0) := 4 * i + 2];
      ghost var seen := SidesBelow(i);
      SeenFacts(faces, i);
      pair, valid := PairSide(faces, pair, valid, edges, 4 * i + 3, (f.v1, f.v0), seen, i + 1);
      pair, valid := PairSide(faces, pair, valid, edges, 4 * i + 1, (f.v2, f.v1), seen + {4 * i + 3}, i + 1);
      pair, valid := PairSide(faces, pair, valid, edges, 4 * i + 2, (f.v0, f.v2), seen + {4 * i + 3} + {4 * i + 1}, i + 1);
      PairedSize(faces, pair, valid, SidesBelow(i + 1));
      PairedFace(faces, pair, valid, SidesBelow(i + 1), i);
      pair := pair[4 * i := 4 * i];
      valid := valid[4 * i := true];
    }
  }

  lemma PairStart(faces: seq<Face>, pair: seq<nat>, valid: seq<bool>)
    requires |pair| == |valid| == 4 * |faces| && forall w | 0 <= w < |valid| :: !valid[w]
    ensures PairedIn(faces, pair, valid, SidesBelow(0)) && SidesKnown(faces, map[], 0) && FacesSet(|faces|, pair, valid, 0)
  {
  }

  /** Which sides are seen when those of face i are paired. */
  lemma SeenFacts(faces: seq<Face>, i: nat)
    requires i < |faces|
    ensures var s := SidesBelow(i); var f := faces[i];
      && IsSide(|faces|, 4 * i + 1) && IsSide(|faces|, 4 * i + 2) && IsSide(|faces|, 4 * i + 3)
      && Inverse((f.v1, f.v0), SideOf(faces, 4 * i + 3)) && Inverse((f.v2, f.v1), SideOf(faces, 4 * i + 1)) && Inverse((f.v0, f.v2), SideOf(faces, 4 * i + 2))
      && 4 * i + 3 !in s && 4 * i + 1 !in s + {4 * i + 3} && 4 * i + 2 !in s + {4 * i + 3} + {4 * i + 1}
      && s + {4 * i + 3} + {4 * i + 1} + {4 * i + 2} == SidesBelow(i + 1)
      && FaceOf(4 * i + 1) == 4 * i && FaceOf(4 * i + 2) == 4 * i && FaceOf(4 * i + 3) == 4 * i
    ensures forall d: nat | d in SidesBelow(i + 1) && FaceOf(d) != 4 * i :: d in SidesBelow(i)
  {
    BelowNext(i);
    FaceSides(faces, i);
    FaceSlots(|faces|, 4 * i);
  }

  /** Every side with an inverse is mated with it, for good. */
  ghost predicate AllMated(faces: seq<Face>, pair: seq<nat>) {
    forall d: nat, e: nat {:trigger Mated(faces, pair, d, e)} | IsSide(|faces|, d) && IsSide(|faces|, e) :: Mated(faces, pair, d, e)
  }

  ghost predicate Mated(faces: seq<Face>, pair: seq<nat>, d: nat, e: nat)
    requires IsSide(|faces|, d) && IsSide(|faces|, e)
  {
    Inverse(SideOf(faces, d), SideOf(faces, e)) ==> Mates(faces, pair, d) && pair[d] == e
  }

  ghost function Alone(n: nat): (r: seq<seq<nat>>)
    ensures |r| == 4 * n && forall f | 0 <= f < 4 * n :: r[f] == [f]
  {
    seq(4 * n, f requires 0 <= f < 4 * n => [f])
  }

  /** The start: every face a path of its own, every shared side free. */
  lemma StartOk(faces: seq<Face>, c: Chains, valid: seq<bool>)
    requires ProperFaces(faces) && PairedIn(faces, c.pair, valid, SidesBelow(|faces|)) && FacesSet(|faces|, c.pair, valid, |faces|)
    requires Shaped(|faces|, c) && c.path == Alone(|faces|)
    requires forall w: nat | w < 4 * |faces| :: !c.used[w] && c.deg[w] == 0
    ensures Growing(faces, c, valid) && AllMated(faces, c.pair)
  {
    hide SideOf, ProperFaces, PairedIn, FacesSet, Mated, MateOk, SettledSide, FaceOf, Aligned, Forest, DegreesOk;
    var n := |faces|;
    forall d: nat, e: nat | IsSide(n, d) && IsSide(n, e) ensures Mated(faces, c.pair, d, e) {
      StartMated(faces, c, valid, d, e);
    }
    forall e: nat | IsSide(n, e) ensures MateOk(faces, c.pair, valid, c.used, e) && SettledSide(faces, c, valid, e) {
      StartSide(faces, c, valid, e);
    }
    PairedSize(faces, c.pair, valid, SidesBelow(|faces|));
    StartForest(n, c, valid);
  }

  lemma StartForest(n: nat, c: Chains, valid: seq<bool>)
    requires FacesSet(n, c.pair, valid, n) && Shaped(n, c) && c.path == Alone(n)
    requires forall w: nat | w < 4 * n :: !c.used[w] && c.deg[w] == 0
    ensures Forest(n, c) && DegreesOk(n, valid, c.used, c.deg)
  {
    hide FaceOf, Aligned, DegreeOk, PathOk, OnSomePath, Apart;
    forall f: nat | IsFace(n, f) ensures DegreeOk(n, valid, c.used, c.deg, f) && PathOk(n, c, f) && OnSomePath(n, c, f) {
      StartFace(n, c, valid, f, f);
    }
    forall f: nat, g: nat | End(n, c, f) && End(n, c, g) ensures Apart(n, c, f, g) {
      StartFace(n, c, valid, f, g);
    }
  }

  lemma StartFace(n: nat, c: Chains, valid: seq<bool>, f: nat, g: nat)
    requires FacesSet(n, c.pair, valid, n) && Shaped(n, c) && c.path == Alone(n) && IsFace(n, f) && IsFace(n, g)
    requires forall w: nat | w < 4 * n :: !c.used[w] && c.deg[w] == 0
    ensures DegreeOk(n, valid, c.used, c.deg, f) && PathOk(n, c, f) && OnSomePath(n, c, f) && Apart(n, c, f, g)
  {
    FaceSlots(n, f);
    assert c.pair[f] == f && c.path[f] == [f] && c.path[g] == [g];
    assert OnPath(n, c, f, f);
    forall i, j | 0 <= i < |c.path[f]| && 0 <= j < |c.path[g]| ensures Meet(c, f, i, g, j) {
      assert i == 0 && j == 0;
    }
  }

  lemma PairedSize(faces: seq<Face>, pair: seq<nat>, valid: seq<bool>, seen: set<nat>)
    requires PairedIn(faces, pair, valid, seen)
    ensures |pair| == |valid| == 4 * |faces|
  {
  }

  lemma StartMated(faces: seq<Face>, c: Chains, valid: seq<bool>, d: nat, e: nat)
    requires ProperFaces(faces) && PairedIn(faces, c.pair, valid, SidesBelow(|faces|)) && IsSide(|faces|, d) && IsSide(|faces|, e)
    ensures Mated(faces, c.pair, d, e) && |valid| == 4 * |faces| && (Inverse(SideOf(faces, d), SideOf(faces, e)) ==> valid[d])
  {
    if Inverse(SideOf(faces, d), SideOf(faces, e)) {
      NoSelfMate(faces, d, e);
      hide ProperFaces, SideOf;
      assert PairOk(faces, c.pair, valid, d, e) && PairOk(faces, c.pair, valid, e, d);
    }
  }

  lemma StartSide(faces: seq<Face>, c: Chains, valid: seq<bool>, e: nat)
    requires ProperFaces(faces) && PairedIn(faces, c.pair, valid, SidesBelow(|faces|)) && IsSide(|faces|, e)
    requires Shaped(|faces|, c) && forall w: nat | w < 4 * |faces| :: !c.used[w]
    ensures MateOk(faces, c.pair, valid, c.used, e) && SettledSide(faces, c, valid, e)
  {
    assert FreeOk(faces, c.pair, valid, SidesBelow(|faces|), e);
    if valid[e] {
      StartMated(faces, c, valid, e, c.pair[e]);
      StartMated(faces, c, valid, c.pair[e], e);
    } else if Mates(faces, c.pair, e) {
      StartMated(faces, c, valid, e, c.pair[e]);
    }
  }

  // ---------- the faces of a mesh ----------

  ghost function FaceList(faces: map<nat, Face>, order: seq<nat>): (fs: seq<Face>)
    requires forall i | 0 <= i < |order| :: order[i] in faces
  {
    seq(|order|, i requires 0 <= i < |order| => faces[order[i]])
  }

  /** The faces of a mesh, in whatever order they are taken, are what the stripper asks for. */
  lemma MeshFacesProper(edges: map<Edge, HalfEdge>, faces: map<nat, Face>, size: nat, order: seq<nat>)
    requires SidesOfFaces(edges, faces, size)
    requires forall i | 0 <= i < |order| :: order[i] in faces
    requires forall i, j | 0 <= i < |order| && 0 <= j < |order| && order[i] == order[j] :: i == j
    ensures ProperFaces(FaceList(faces, order))
  {
    var fs := FaceList(faces, order);
    forall i | 0 <= i < |fs| ensures !Degenerate(fs[i].v0, fs[i].v1, fs[i].v2) {
      assert fs[i] == faces[order[i]];
    }
    forall d: nat, e: nat | IsSide(|fs|, d) && IsSide(|fs|, e) && SideOf(fs, d) == SideOf(fs, e) ensures d == e {
      SideInMesh(edges, faces, size, order, d);
      SideInMesh(edges, faces, size, order, e);
      assert order[d / 4] == order[e / 4];
      SidesDiffer(fs, d, e);
    }
  }

  lemma SideInMesh(edges: map<Edge, HalfEdge>, faces: map<nat, Face>, size: nat, order: seq<nat>, d: nat)
    requires SidesOfFaces(edges, faces, size) && forall i | 0 <= i < |order| :: order[i] in faces
    requires IsSide(|order|, d)
    ensures var fs := FaceList(faces, order); SideOf(fs, d) in edges && edges[SideOf(fs, d)].face == order[d / 4]
    ensures var f := faces[order[d / 4]]; FaceList(faces, order)[d / 4] == f && !Degenerate(f.v0, f.v1, f.v2)
  {
    assert SidesOk(edges, order[d / 4], faces[order[d / 4]]);
  }

  lemma SidesDiffer(fs: seq<Face>, d: nat, e: nat)
    requires IsSide(|fs|, d) && IsSide(|fs|, e) && d / 4 == e / 4 && SideOf(fs, d) == SideOf(fs, e)
    requires var f := fs[d / 4]; !Degenerate(f.v0, f.v1, f.v2)
    ensures d == e
  {
    assert d == 4 * (d / 4) + d % 4 && e == 4 * (e / 4) + e % 4;
  }

  // ---------- the queue ----------

  /** Twice the free sides of a face, and one more at the end of a longer path. */
  function ValueOf(pair: seq<nat>, valid: seq<bool>, f: nat): (v: nat)
    requires |pair| == |valid| && f + 3 < |pair|
    ensures v > 0 <==> valid[f + 1] || valid[f + 2] || valid[f + 3]
  {
    var v := 2 * (Bit(valid[f + 1]) + Bit(valid[f + 2]) + Bit(valid[f + 3]));
    if pair[f] != f && v > 0 then v + 1 else v
  }

  /** The queue after a face is put in anew: with its value while it is free and has free sides, and else not at all. */
  function Update(pair: seq<nat>, valid: seq<bool>, heap: map<nat, nat>, f: nat): (r: map<nat, nat>)
    requires |pair| == |valid| && f < |valid| && (valid[f] ==> f + 3 < |valid|)
  {
    if valid[f] && ValueOf(pair, valid, f) > 0 then (heap - {f})[f := ValueOf(pair, valid, f)] else heap - {f}
  }

  // ---------- growth, step by step ----------

  /** What a step works on: the paths, the free slots and the queue. */
  datatype Growth = Growth(c: Chains, valid: seq<bool>, heap: map<nat, nat>)

  /** The free slots once the free sides of t before side k are given up. */
  ghost function CutTo(n: nat, valid: seq<bool>, pair: seq<nat>, t: nat, k: nat): (r: seq<bool>) {
    if k <= 1 then valid else CutAt(n, CutTo(n, valid, pair, t, k - 1), pair, t + k - 1)
  }

  ghost function CutAt(n: nat, valid: seq<bool>, pair: seq<nat>, e: nat): (r: seq<bool>) {
    if |valid| == |pair| == 4 * n && e < 4 * n && pair[e] < 4 * n && valid[e] then Cut(valid, pair, e) else valid
  }

  /** The free sides of t before side k lead to the other end of its path. */
  ghost predicate HomeTo(n: nat, s: Growth, t: nat, k: nat) {
    k <= 1 || (HomeTo(n, s, t, k - 1) && HomeAt(n, s.c.pair, CutTo(n, s.valid, s.c.pair, t, k - 1), t, k - 1))
  }

  ghost predicate HomeAt(n: nat, pair: seq<nat>, valid: seq<bool>, t: nat, i: nat) {
    |valid| == |pair| == 4 * n && t + i < 4 * n && (valid[t + i] ==> pair[t] == FaceOf(pair[t + i]))
  }

  ghost predicate LeastFace(heap: map<nat, nat>, t: nat) {
    t in heap && forall f | f in heap :: heap[t] <= heap[f]
  }

  /** The paths of face t and of its neighbour over side k are joined, what is no longer free is taken out, and the two faces
      are put in the queue anew. */
  ghost predicate Joining(n: nat, s: Growth, v: seq<bool>, r: Growth, t: nat, k: nat) {
    && |v| == |s.c.pair| == 4 * n && t + k < 4 * n && v[t + k]
    && Joinable(n, s.c, t + k, s.c.pair[t + k]) && FaceOf(t + k) == t
    && r.c == Join(n, s.c, t + k, s.c.pair[t + k]) && Applied(n, r.c, v, r.valid, t + k, s.c.pair[t + k])
    && QueuedAnew(n, r.c.pair, r.valid, s.heap - {t}, r.heap, t, FaceOf(s.c.pair[t + k]))
  }

  ghost predicate QueuedAnew(n: nat, pair: seq<nat>, valid: seq<bool>, heap0: map<nat, nat>, heap: map<nat, nat>, f1: nat, f2: nat) {
    && |pair| == |valid| == 4 * n && f1 + 3 < 4 * n && f2 + 3 < 4 * n
    && heap == Update(pair, valid, Update(pair, valid, heap0, f1), f2)
  }

  /** One step on face t, of least value: free sides before side k lead home and are given up; the path is joined over side
      k, if there is such a side. */
  ghost predicate StepOn(n: nat, s: Growth, r: Growth, t: nat, k: nat) {
    && LeastFace(s.heap, t) && 1 <= k <= 4 && HomeTo(n, s, t, k)
    && var v := CutTo(n, s.valid, s.c.pair, t, k);
      if k == 4 then r == Growth(s.c, v, s.heap - {t}) else Joining(n, s, v, r, t, k)
  }

  ghost predicate StepAt(n: nat, run: seq<Growth>, i: nat) {
    exists t: nat, k: nat :: StepFrom(n, run, i, t, k)
  }

  ghost predicate StepFrom(n: nat, run: seq<Growth>, i: nat, t: nat, k: nat) {
    i + 1 < |run| && StepOn(n, run[i], run[i + 1], t, k)
  }

  ghost predicate GrowthRun(n: nat, run: seq<Growth>) {
    run != [] && forall i: nat {:trigger StepAt(n, run, i)} | i + 1 < |run| :: StepAt(n, run, i)
  }

  lemma GrowthOn(n: nat, run: seq<Growth>, r: Growth, t: nat, k: nat)
    requires GrowthRun(n, run) && StepOn(n, run[|run| - 1], r, t, k)
    ensures GrowthRun(n, run + [r])
  {
    hide StepOn;
    var more := run + [r];
    forall i: nat | i + 1 < |more| ensures StepAt(n, more, i) {
      if i + 1 < |run| {
        assert StepAt(n, run, i);
        var u: nat, l: nat :| StepFrom(n, run, i, u, l);
        assert StepFrom(n, more, i, u, l);
      } else {
        assert StepFrom(n, more, i, t, k);
      }
    }
  }

  /** The queue growth starts from: every face that is free and has free sides, with its value. */
  ghost predicate FirstQueue(n: nat, pair: seq<nat>, valid: seq<bool>, heap: map<nat, nat>, i: nat) {
    && |pair| == |valid| == 4 * n && i <= n
    && forall f: nat {:trigger f in heap} :: QueuedFirst(n, pair, valid, heap, i, f)
  }

  ghost predicate QueuedFirst(n: nat, pair: seq<nat>, valid: seq<bool>, heap: map<nat, nat>, i: nat, f: nat)
    requires |pair| == |valid| == 4 * n
  {
    && (f in heap <==> f < 4 * i && IsFace(n, f) && valid[f] && ValueOf(pair, valid, f) > 0)
    && (f in heap && IsFace(n, f) ==> heap[f] == ValueOf(pair, valid, f))
  }

  lemma FirstQueueNext(n: nat, pair: seq<nat>, valid: seq<bool>, heap: map<nat, nat>, i: nat)
    requires FirstQueue(n, pair, valid, heap, i) && i < n
    ensures IsFace(n, 4 * i)
    ensures var v := ValueOf(pair, valid, 4 * i);
      FirstQueue(n, pair, valid, if valid[4 * i] && v > 0 then heap[4 * i := v] else heap, i + 1)
  {
    hide ValueOf;
    var v := ValueOf(pair, valid, 4 * i);
    var heap', m := if valid[4 * i] && v > 0 then heap[4 * i := v] else heap, i + 1;
    forall f: nat ensures QueuedFirst(n, pair, valid, heap', m, f) {
      assert QueuedFirst(n, pair, valid, heap, i, f);
    }
  }

  /** Queueing a face that is free restores what `Queued` asks of it. */
  lemma QueuedAgain(n: nat, pair: seq<nat>, valid: seq<bool>, heap: map<nat, nat>, f: nat, but: set<nat>)
    requires |pair| == |valid| == 4 * n && IsFace(n, f) && Queued(n, valid, heap, f) && QueueOk(n, valid, heap, but)
    requires !valid[f] ==> !valid[f + 1] && !valid[f + 2] && !valid[f + 3]
    ensures QueueOk(n, valid, Update(pair, valid, heap, f), but - {f}) && AllQueued(n, valid, Update(pair, valid, heap, f))
  {
    forall e: nat | IsSide(n, e) && FaceOf(e) == f ensures e == f + 1 || e == f + 2 || e == f + 3 {
    }
  }

  lemma QueuedBut(n: nat, valid: seq<bool>, heap: map<nat, nat>, t: nat)
    requires AllQueued(n, valid, heap)
    ensures Queued(n, valid, heap, t) && Queued(n, valid, heap - {t}, t)
    ensures forall but :: QueueOk(n, valid, heap, but) ==> QueueOk(n, valid, heap - {t}, but)
  {
  }

  lemma OtherEnd(n: nat, c: Chains, f: nat)
    requires Forest(n, c) && End(n, c, f)
    ensures End(n, c, c.pair[f]) && c.pair[c.pair[f]] == f
  {
    assert PathOk(n, c, f);
  }

  /** A side that would close a cycle is given up. */
  lemma CutCycle(faces: seq<Face>, c: Chains, valid: seq<bool>, heap: map<nat, nat>, t: nat, e: nat)
    requires Growing(faces, c, valid) && IsSide(|faces|, e) && valid[e] && c.pair[FaceOf(e)] == FaceOf(c.pair[e])
    requires QueueOk(|faces|, valid, heap, {}) && Queued(|faces|, valid, heap, t)
    ensures c.pair[e] < 4 * |faces| && Growing(faces, c, Cut(valid, c.pair, e)) && Live(Cut(valid, c.pair, e)) < Live(valid)
    ensures QueueOk(|faces|, Cut(valid, c.pair, e), heap, {}) && Queued(|faces|, Cut(valid, c.pair, e), heap, t)
  {
    hide Forest, AllMated;

    FreeJoinable(faces, c, valid, e);
    CutOk(faces, c, valid, e);
    CutDegrees(|faces|, c, valid, e);
    OtherEnd(|faces|, c, FaceOf(e));
    SideSlot(|faces|, e);
    SideSlot(|faces|, c.pair[e]);
    var r := Cut(valid, c.pair, e);
    forall d: nat | IsSide(|faces|, d) ensures SettledSide(faces, c, r, d) {
      assert SettledSide(faces, c, valid, d);
    }
  }

  lemma CutDegrees(n: nat, c: Chains, valid: seq<bool>, e: nat)
    requires Shaped(n, c) && DegreesOk(n, valid, c.used, c.deg) && IsSide(n, e) && IsSide(n, c.pair[e])
    ensures DegreesOk(n, Cut(valid, c.pair, e), c.used, c.deg)
  {
    hide FaceOf, Aligned;
    var r := Cut(valid, c.pair, e);
    SideSlot(n, e);
    SideSlot(n, c.pair[e]);
    forall f: nat | IsFace(n, f) ensures DegreeOk(n, r, c.used, c.deg, f) {
      FaceSlots(n, f);
      assert DegreeOk(n, valid, c.used, c.deg, f);
    }
  }

  /** No two paths can be joined over sides d and e: they are used, or at an inner face, or join the ends of one path. */
  ghost predicate CannotJoin(faces: seq<Face>, c: Chains, d: nat, e: nat) {
    Shaped(|faces|, c) && (IsSide(|faces|, d) && IsSide(|faces|, e) && Inverse(SideOf(faces, d), SideOf(faces, e)) ==>
      c.used[d] || c.deg[FaceOf(d)] == 2 || c.deg[FaceOf(e)] == 2 || c.pair[FaceOf(d)] == FaceOf(e))
  }

  ghost predicate Maximal(faces: seq<Face>, c: Chains) {
    forall d: nat, e: nat {:trigger CannotJoin(faces, c, d, e)} :: CannotJoin(faces, c, d, e)
  }

  lemma NothingQueued(faces: seq<Face>, c: Chains, valid: seq<bool>)
    requires Growing(faces, c, valid) && AllQueued(|faces|, valid, map[])
    ensures Maximal(faces, c)
  {
    hide FaceOf, Aligned, SideOf, DegreesOk, MatesOk, PathOk, Apart, OnSomePath;
    forall d: nat, e: nat ensures CannotJoin(faces, c, d, e) {
      if IsSide(|faces|, d) && IsSide(|faces|, e) && Inverse(SideOf(faces, d), SideOf(faces, e)) {
        assert Mated(faces, c.pair, d, e) && SettledSide(faces, c, valid, d);
      }
    }
  }

  lemma MatedStays(faces: seq<Face>, pair: seq<nat>, pair': seq<nat>)
    requires AllMated(faces, pair) && |pair| == |pair'| && forall e: nat {:trigger pair'[e]} | IsSide(|faces|, e) && e < |pair| :: pair'[e] == pair[e]
    ensures AllMated(faces, pair')
  {
    hide FaceOf, Aligned, SideOf;
    forall d: nat, e: nat | IsSide(|faces|, d) && IsSide(|faces|, e) ensures Mated(faces, pair', d, e) {
      assert Mated(faces, pair, d, e);
    }
  }

  lemma QueuedEdge(faces: seq<Face>, c: Chains, valid: seq<bool>, heap: map<nat, nat>, t: nat, i: nat)
    requires Growing(faces, c, valid) && IsFace(|faces|, t) && 1 <= i <= 3
    ensures Shaped(|faces|, c) && |valid| == 4 * |faces| && t + i < 4 * |faces| && IsSide(|faces|, t + i) && FaceOf(t + i) == t
    ensures valid[t + i] ==> c.pair[t + i] < 4 * |faces| && (c.pair[t] != FaceOf(c.pair[t + i]) ==> Joinable(|faces|, c, t + i, c.pair[t + i]))
  {
    hide FaceOf, Aligned, Settled, Joinable;
    SlotAt(|faces|, t, i);
    if valid[t + i] { FreeJoinable(faces, c, valid, t + i); }
  }

  /** The sides of t before side i are not free. */
  ghost predicate SidesGone(n: nat, valid: seq<bool>, t: nat, i: int) {
    |valid| == 4 * n && t + 3 < 4 * n && (i > 1 ==> !valid[t + 1]) && (i > 2 ==> !valid[t + 2]) && (i > 3 ==> !valid[t + 3])
  }

  /** A face without free sides need not be queued. */
  lemma QueuedDone(n: nat, valid: seq<bool>, heap: map<nat, nat>, t: nat)
    requires Queued(n, valid, heap, t) && IsFace(n, t) && !valid[t + 1] && !valid[t + 2] && !valid[t + 3]
    ensures AllQueued(n, valid, heap)
  {
    forall e: nat | IsSide(n, e) && valid[e] ensures FaceOf(e) in heap { SideSlot(n, e); }
  }

  lemma LiveSmaller(valid: seq<bool>, r: seq<bool>)
    ensures Live(r) < Live(valid) ==> |Live(r)| < |Live(valid)|
    ensures Live(r) <= Live(valid) ==> |Live(r)| <= |Live(valid)|
  {
    if Live(r) <= Live(valid) { SubsetSize(Live(r), Live(valid)); }
  }

  lemma PopShrinks(heap: map<nat, nat>, f: nat)
    requires f in heap
    ensures |heap - {f}| < |heap|
  {
    assert (heap - {f}).Keys + {f} == heap.Keys;
  }

  class Stripper {
    const faces: seq<Face>
    var pair: seq<nat>
    var valid: seq<bool>
    var used: seq<bool>
    var deg: seq<nat>
    var heap: map<nat, nat>
    ghost var path: seq<seq<nat>>

    ghost function C(): Chains
      reads this
    {
      Chains(pair, used, deg, path)
    }

    constructor (faces: seq<Face>)
      requires ProperFaces(faces)
      ensures this.faces == faces && heap == map[] && Growing(faces, C(), valid)
    {
      var p, v := PairUp(faces);
      this.faces, pair, valid, heap := faces, p, v, map[];
      used, deg, path := seq(4 * |faces|, _ => false), seq(4 * |faces|, _ => 0), Alone(|faces|);
      new;
      hide PairedIn, ProperFaces, Growing, AllMated;
      PairedSize(faces, pair, valid, SidesBelow(|faces|));
      StartOk(faces, C(), valid);
    }

    method AddToHeap(f: nat)
      requires |pair| == |valid| == 4 * |faces| && f < 4 * |faces| && (IsFace(|faces|, f) || !valid[f])
      modifies this`heap
      ensures heap == if valid[f] && ValueOf(pair, valid, f) > 0 then old(heap)[f := ValueOf(pair, valid, f)] else old(heap)
    {
      if valid[f] {
        var v := ValueOf(pair, valid, f);
        if v > 0 { heap := heap[f := v]; }
      }
    }

    method UpdateHeap(f: nat)
      requires |pair| == |valid| == 4 * |faces| && f < 4 * |faces| && (IsFace(|faces|, f) || !valid[f])
      modifies this`heap
      ensures heap == Update(pair, valid, old(heap), f)
    {
      heap := heap - {f};
      AddToHeap(f);
    }

    /** Takes face f and its sides out. The queue is asked to update a side, which it never holds. */
    method DetachFace(f: nat)
      requires MatesOk(faces, pair, valid, used) && IsFace(|faces|, f) && forall g | g in heap :: IsFace(|faces|, g)
      modifies this`valid, this`heap
      ensures Detached(|faces|, pair, old(valid), valid, f) && MatesOk(faces, pair, valid, used) && heap == old(heap)
    {
      hide MatesOk, DetachedTo, Detached, FaceOf, Aligned, SideOf, ValueOf;
      FaceSlots(|faces|, f);
      SideFacts(faces, C(), valid, f);
      ghost var c, valid0, heap0 := C(), valid, heap;
      valid := valid[f := false];
      DetachStart(faces, c, valid0, f);
      for i := 0 to 3
        invariant heap == heap0 && MatesOk(faces, pair, valid, used) && DetachedTo(|faces|, pair, valid0, valid, f, i)
      {
        var e := f + i + 1;
        DetachNext(faces, c, valid0, valid, f, i);
        SideFacts(faces, c, valid, e);
        if valid[e] {
          CutOk(faces, c, valid, e);
          valid := valid[e := false];
          valid := valid[pair[e] := false];
          UpdateHeap(pair[e]);
          assert heap == heap0;
        }
      }
      DetachEnd(faces, c, valid0, valid, f);
    }

    method UseEdge(f: nat, e: nat)
      requires f < |deg| && e < |used|
      modifies this`used, this`deg
      ensures used == old(used)[e := true] && deg == old(deg)[f := old(deg)[f] + 1]
    {
      deg := deg[f := deg[f] + 1];
      used := used[e := true];
    }

    /** Detaches f unless it is a path by itself. */
    method DetachJoined(f: nat)
      requires MatesOk(faces, pair, valid, used) && IsFace(|faces|, f) && forall g | g in heap :: IsFace(|faces|, g)
      modifies this`valid, this`heap
      ensures MatesOk(faces, pair, valid, used) && heap == old(heap) && f < |pair| == |valid| == 4 * |faces|
      ensures if pair[f] != f then Detached(|faces|, pair, old(valid), valid, f) else valid == old(valid)
    {
      FaceSlots(|faces|, f);
      SideFacts(faces, C(), valid, f);
      hide MatesOk, Detached;
      if pair[f] != f { DetachFace(f); }
    }

    /** The first half of `apply_edge`: the side is used, and a face that already had a used side is taken out. */
    method UseSide(f1: nat, e1: nat, f2: nat, e2: nat)
      requires Growing(faces, C(), valid) && Joinable(|faces|, C(), e1, e2) && valid[e1] && f1 == FaceOf(e1) && f2 == FaceOf(e2)
      requires QueueOk(|faces|, valid, heap, {})
      modifies this`used, this`deg, this`valid, this`heap
      ensures used == Join(|faces|, old(C()), e1, e2).used && deg == Join(|faces|, old(C()), e1, e2).deg
      ensures Applied(|faces|, Join(|faces|, old(C()), e1, e2), old(valid), valid, e1, e2)
      ensures MatesOk(faces, pair, valid, used) && heap == old(heap)
    {
      hide FaceOf, Aligned, Forest, Settled, DegreesOk, Live, Join, Applied, Detached;
      ghost var c, valid0 := C(), valid;
      UseFacts(|faces|, c, e1, e2);
      UsedMates(faces, c, valid, e1);
      assert forall g | g in heap :: IsFace(|faces|, g);
      hide Growing, Joinable, MatesOk, QueueOk;
      UseEdge(f1, e1);
      UseEdge(f2, e2);
      valid := valid[e1 := false];
      valid := valid[e2 := false];
      ghost var v1 := valid;
      DetachJoined(f1);
      ghost var v2 := valid;
      DetachJoined(f2);
      AppliedFrom(|faces|, c, valid0, v1, v2, valid, e1, e2);
    }

    /** The far ends become each other's. */
    method SwapEnds(f1: nat, f2: nat)
      requires f1 < |pair| && f2 < |pair| && pair[f1] < |pair| && pair[f2] < |pair| && pair[f2] != f1
      modifies this`pair
      ensures pair == old(pair)[old(pair)[f2] := old(pair)[f1]][old(pair)[f1] := old(pair)[f2]]
    {
      var tmp := pair[f2];
      pair := pair[pair[f2] := pair[f1]];
      pair := pair[pair[f1] := tmp];
    }

    /** Queues the two faces again, if they are still ends. */
    method Requeue(f1: nat, f2: nat)
      requires |pair| == |valid| == 4 * |faces| && FaceOut(|faces|, valid, f1) && FaceOut(|faces|, valid, f2)
      requires QueueOk(|faces|, valid, heap, {f1, f2}) && Queued(|faces|, valid, heap, f1)
      modifies this`heap
      ensures QueueOk(|faces|, valid, heap, {}) && AllQueued(|faces|, valid, heap)
      ensures QueuedAnew(|faces|, pair, valid, old(heap), heap, f1, f2)
    {
      FaceSlots(|faces|, f1);
      FaceSlots(|faces|, f2);
      hide QueueOk, Queued, AllQueued, ValueOf, Update;
      QueuedAgain(|faces|, pair, valid, heap, f1, {f1, f2});
      UpdateHeap(f1);
      QueuedBut(|faces|, valid, heap, f2);
      QueuedAgain(|faces|, pair, valid, heap, f2, {f1, f2} - {f1});
      UpdateHeap(f2);
      assert {f1, f2} - {f1} - {f2} == {};
    }

    /** Joins the paths that end at face f1 and at its neighbour over side `idx`. */
    method ApplyEdge(f1: nat, idx: nat)
      requires Growing(faces, C(), valid) && IsFace(|faces|, f1) && 1 <= idx <= 3 && valid[f1 + idx]
      requires Joinable(|faces|, C(), f1 + idx, pair[f1 + idx])
      requires QueueOk(|faces|, valid, heap, {}) && Queued(|faces|, valid, heap, f1)
      modifies this
      ensures Growing(faces, C(), valid) && C() == Join(|faces|, old(C()), f1 + idx, old(pair)[f1 + idx])
      ensures QueueOk(|faces|, valid, heap, {}) && AllQueued(|faces|, valid, heap)
      ensures Live(valid) < Live(old(valid))
      ensures Applied(|faces|, C(), old(valid), valid, f1 + idx, old(pair)[f1 + idx])
      ensures QueuedAnew(|faces|, pair, valid, old(heap), heap, f1, FaceOf(old(pair)[f1 + idx]))
    {
      hide FaceOf, Aligned, Growing, MatesOk, Live, QueueOk, Queued, AllQueued, Applied, Join, FaceOut, QueuedAnew;
      var e1 := f1 + idx;
      var e2 := pair[e1];
      var f2 := FaceOf(e2);
      ghost var c, valid0 := C(), valid;
      FaceSlots(|faces|, f1);
      ApplyFacts(faces, c, valid, e1);
      hide Joinable;
      UseSide(f1, e1, f2, e2);
      SwapEnds(f1, f2);
      path := Join(|faces|, c, e1, e2).path;
      JoinIs(|faces|, c, C(), e1, e2);
      ApplyOk(faces, c, valid0, valid, C(), e1, e2);
      AppliedShrinks(|faces|, C(), valid0, valid, e1, e2);
      ApplyQueue(faces, C(), valid0, valid, heap, e1, e2);
      Requeue(f1, f2);
    }

    /** A face of least value. */
    method Top() returns (top: nat)
      requires heap != map[]
      ensures LeastFace(heap, top)
    {
      top :| top in heap;
      var rest := heap.Keys - {top};
      while rest != {}
        invariant top in heap && rest <= heap.Keys
        invariant forall f | f in heap && f !in rest :: heap[top] <= heap[f]
        decreases |rest|
      {
        var f: nat :| f in rest;
        if heap[f] < heap[top] { top := f; }
        rest := rest - {f};
      }
    }

    /** Takes a face of least value off the queue and joins its path over the first free side that does not lead to its
        own other end; sides that do are given up. Values in the queue are positive. */
    method Iteration() returns (ghost t: nat, ghost k: nat)
      requires Growing(faces, C(), valid) && QueueOk(|faces|, valid, heap, {}) && AllQueued(|faces|, valid, heap) && heap != map[]
      modifies this
      ensures Growing(faces, C(), valid) && QueueOk(|faces|, valid, heap, {}) && AllQueued(|faces|, valid, heap)
      ensures StepOn(|faces|, old(Now()), Now(), t, k)
      ensures |Live(valid)| < |Live(old(valid))| || (|Live(valid)| <= |Live(old(valid))| && |heap| < |old(heap)|)
    {
      hide FaceOf, Aligned, Growing, Live, Queued, AllQueued, CutTo, HomeTo, Joining, LeastFace;
      ghost var s := Now();
      var top := Top();
      QueueFacts(|faces|, valid, heap, top);
      FaceSlots(|faces|, top);
      hide QueueOk;
      QueuedBut(|faces|, valid, heap, top);
      PopShrinks(heap, top);
      t := top;
      heap := heap - {top};
      CutStart(|faces|, s, top);
      for i := 1 to 4
        invariant Growing(faces, C(), valid) && QueueOk(|faces|, valid, heap, {}) && Queued(|faces|, valid, heap, t)
        invariant Live(valid) <= Live(s.valid) && SidesGone(|faces|, valid, t, i)
        invariant Now() == Growth(s.c, CutTo(|faces|, s.valid, s.c.pair, t, i), s.heap - {t}) && HomeTo(|faces|, s, t, i)
      {
        var applied := TrySide(top, i, s);
        if applied { return top, i; }
      }
      LiveSmaller(s.valid, valid);
      QueuedDone(|faces|, valid, heap, t);
      k := 4;
    }

    /** The body of that loop; the step began in state `s`. */
    method TrySide(t: nat, i: nat, ghost s: Growth) returns (applied: bool)
      requires Growing(faces, C(), valid) && QueueOk(|faces|, valid, heap, {}) && Queued(|faces|, valid, heap, t)
      requires IsFace(|faces|, t) && 1 <= i <= 3 && SidesGone(|faces|, valid, t, i) && Live(valid) <= Live(s.valid)
      requires Now() == Growth(s.c, CutTo(|faces|, s.valid, s.c.pair, t, i), s.heap - {t}) && HomeTo(|faces|, s, t, i)
      modifies this
      ensures Growing(faces, C(), valid) && QueueOk(|faces|, valid, heap, {})
      ensures applied ==> AllQueued(|faces|, valid, heap) && |Live(valid)| < |Live(s.valid)|
      ensures applied ==> Joining(|faces|, s, CutTo(|faces|, s.valid, s.c.pair, t, i), Now(), t, i)
      ensures !applied ==> Queued(|faces|, valid, heap, t) && SidesGone(|faces|, valid, t, i + 1) && Live(valid) <= Live(s.valid)
      ensures !applied ==> Now() == Growth(s.c, CutTo(|faces|, s.valid, s.c.pair, t, i + 1), s.heap - {t}) && HomeTo(|faces|, s, t, i + 1)
    {
      hide Growing, Live, QueueOk, Queued, AllQueued, Joinable, FaceOf, Aligned, Join, Applied, QueuedAnew, Cut, CutTo, HomeTo;
      QueuedEdge(faces, C(), valid, heap, t, i);
      CutNext(|faces|, s, t, i);
      if valid[t + i] {
        if pair[t] != FaceOf(pair[t + i]) {
          ApplyEdge(t, i);
          LiveSmaller(s.valid, valid);
          return true;
        }
        CutCycle(faces, C(), valid, heap, t, t + i);
        CutIs(valid, pair, t + i);
        valid := valid[t + i := false];
        valid := valid[pair[t + i] := false];
      }
      return false;
    }

    ghost function Now(): (s: Growth)
      reads this
    {
      Growth(C(), valid, heap)
    }

    /** The loop of `execute` that grows the strips, from a queue of all free faces; `run` are the states it goes through. */
    method Grow() returns (ghost run: seq<Growth>)
      requires Growing(faces, C(), valid) && QueueOk(|faces|, valid, heap, {}) && AllQueued(|faces|, valid, heap)
      modifies this
      ensures Growing(faces, C(), valid) && Maximal(faces, C())
      ensures GrowthRun(|faces|, run) && run[0] == old(Now()) && run[|run| - 1] == Now() && heap == map[]
    {
      hide Growing, QueueOk, AllQueued, Maximal, GrowthRun, StepOn;
      run := [Now()];
      GrowthStart(|faces|, Now());
      while heap != map[]
        invariant Growing(faces, C(), valid) && QueueOk(|faces|, valid, heap, {}) && AllQueued(|faces|, valid, heap)
        invariant GrowthRun(|faces|, run) && run != [] && run[0] == old(Now()) && run[|run| - 1] == Now()
        decreases |Live(valid)|, |heap|
      {
        ghost var t, k := Iteration();
        GrowthOn(|faces|, run, Now(), t, k);
        run := run + [Now()];
      }
      NothingQueued(faces, C(), valid);
    }

    /** The body of the walk: face `FaceOf(entr)` is printed and left by its other used side. */
    method PrintNext(f: nat, vs0: seq<nat>, length0: nat, ccw0: nat, entr0: nat, ghost vs: seq<nat>, ghost s0: seq<nat>, ghost i: nat, ghost c: Chains)
      returns (vs': seq<nat>, length: nat, ccw: nat, entr: nat, ghost s: seq<nat>)
      requires Printable(faces, c, valid) && pair == c.pair && used == c.used
      requires End(|faces|, c, f) && vs0 == vs + s0 && length0 == |s0| && Walking(faces, c, f, i, s0, entr0, ccw0) && InnerFace(c, f, i)
      ensures vs' == vs + s && length == |s| && Walking(faces, c, f, i + 1, s, entr, ccw)
      ensures entr < 4 * |faces| && FaceOf(entr) < 4 * |faces| && i + 1 < |c.path[f]|
    {
      hide FaceOf, Aligned, Forest, MatesOk, DegreesOk, Walking, Entering, Shows, Decode, VertexOf, SideOf, Turned;
      var curr := FaceOf(entr0);
      WalkingFacts(faces, c, f, i, s0, entr0, ccw0);
      InnerFacts(faces, c, valid, f, i, entr0);
      vs', length, s := vs0, length0, s0;
      Turn(|s|, ccw0);
      ccw := 1 - ccw0;
      var k := ExpectedIdx(ccw, entr0 % 4);
      if !used[curr + k] {
        length := length + 1;
        Swap(faces, s, entr0);
        vs', s := vs' + [vs'[|vs'| - 2]], s + [s[|s| - 2]];
        Turn(|s|, ccw);
        ccw := 1 - ccw;
        k := ExpectedIdx(ccw, entr0 % 4);
        assert used[curr + k];
      }
      length := length + 1;
      entr := pair[curr + k];
      assert ExitSide(faces, c, f, i, curr, k);
      NextWalking(faces, c, f, i, s, entr0, ccw, k);
      vs', s := vs' + [VertexOf(faces, curr, entr0 % 4)], s + [VertexOf(faces, curr, entr0 % 4)];
    }

    /** Prints the path from f, whose degree is one, and marks both its ends as printed. */
    method PrintPath(f: nat, vs: seq<nat>, ghost c: Chains) returns (vs': seq<nat>, length: nat, ghost s: seq<nat>)
      requires Printable(faces, c, valid) && pair == c.pair && used == c.used && OpenPath(|faces|, c, deg, f)
      modifies this`deg
      ensures vs' == vs + s && length == |s| && Shows(faces, Decode(s), c.path[f])
      ensures deg == old(deg)[f := 2][c.pair[f] := 2]
    {
      hide FaceOf, Aligned, Forest, MatesOk, DegreesOk, SideOf, Mates, Entering, Shows, Decode, Walking, VertexOf;
      FirstFacts(faces, c, valid, deg, f);
      deg := deg[f := 2];
      ghost var k0 := EdgeTable(used[f + 1], used[f + 2], used[f + 3]);
      var ccw: nat, curr: nat, k: nat := 0, f, EdgeTable(used[f + 1], used[f + 2], used[f + 3]);
      vs', length, s := vs, 0, [];
      for i := 0 to 3
        invariant vs' == vs + s && length == |s| == i && 1 <= k <= 3
        invariant k == (if i == 1 then CircleEdge(k0) else if i == 2 then CircleEdge(CircleEdge(k0)) else k0)
        invariant s == [VertexOf(faces, f, k0), VertexOf(faces, f, CircleEdge(k0)), VertexOf(faces, f, CircleEdge(CircleEdge(k0)))][..i]
      {
        length := length + 1;
        vs', s := vs' + [VertexOf(faces, curr, k)], s + [VertexOf(faces, curr, k)];
        k := CircleEdge(k);
      }
      var entr: nat := pair[curr + k];
      curr := FaceOf(entr);
      ghost var i: nat := 1;
      FirstWalking(faces, c, valid, f, s, k0);
      while deg[curr] != 1
        invariant vs' == vs + s && length == |s| && deg == old(deg)[f := 2] && curr < |deg| && entr < 4 * |faces|
        invariant Walking(faces, c, f, i, s, entr, ccw) && curr == FaceOf(entr) && i < |c.path[f]|
        decreases |c.path[f]| - i
      {
        WalkingFacts(faces, c, f, i, s, entr, ccw);
        WalkPlace(faces, c, f, i, old(deg), curr);
        vs', length, ccw, entr, s := PrintNext(f, vs', length, ccw, entr, vs, s, i, c);
        curr := FaceOf(entr);
        i := i + 1;
      }
      WalkingFacts(faces, c, f, i, s, entr, ccw);
      WalkPlace(faces, c, f, i, old(deg), curr);
      LastFacts(faces, c, f, i, s, entr, ccw);
      length := length + 1;
      vs', s := vs' + [VertexOf(faces, curr, entr % 4)], s + [VertexOf(faces, curr, entr % 4)];
      deg := deg[curr := 2];
    }

    /** Prints the strip that ends at f, if f still is an end. */
    method ExtractStrip(f: nat, o: Output, ghost c: Chains) returns (o': Output, ghost s: seq<nat>)
      requires Printable(faces, c, valid) && pair == c.pair && used == c.used && IsFace(|faces|, f) && |deg| == 4 * |faces|
      requires deg[f] == 0 ==> c.deg[f] == 0
      requires deg[f] == 1 ==> OpenPath(|faces|, c, deg, f)
      modifies this`deg
      ensures |deg| == |old(deg)| && (old(deg)[f] >= 2 ==> o' == o && deg == old(deg))
      ensures old(deg)[f] < 2 ==> o' == Append(o, s) && Shows(faces, Decode(s), c.path[f])
      ensures old(deg)[f] == 0 ==> deg == old(deg)
      ensures old(deg)[f] == 1 ==> deg == old(deg)[f := 2][c.pair[f] := 2]
    {
      var start := |o.vertices|;
      if deg[f] == 0 {
        s := [VertexOf(faces, f, 1), VertexOf(faces, f, 3), VertexOf(faces, f, 2), VertexOf(faces, f, 3)];
        SinglePath(|faces|, c, f);
        PrintSingle(faces, f);
        o' := Output(o.vertices + [VertexOf(faces, f, 1)] + [VertexOf(faces, f, 3)] + [VertexOf(faces, f, 2)] + [VertexOf(faces, f, 3)],
          o.begins + [start], o.lengths + [4]);
        assert o' == Append(o, s);
        return;
      }
      if deg[f] != 1 { return o, []; }
      hide Printable, OpenPath, Shows, Decode;
      var vs, length;
      vs, length, s := PrintPath(f, o.vertices, c);
      o' := Output(vs, o.begins + [start], o.lengths + [length]);
    }

    /** Prints all paths, each from the lower of its ends. */
    method Print() returns (o: Output, ghost q: seq<nat>)
      requires Printable(faces, C(), valid)
      modifies this`deg
      ensures Laid(o) && Shows(faces, DecodeAll(o, |o.begins|), q) && EachOnce(|faces|, q)
      ensures PathStrips(faces, old(C()), o, LowerEnds(|faces|, old(C()), |faces|))
    {
      hide PathStrips, LowerEnds, LowerEnd, StripAt, End, Printable, Shows, DegreesNow, Printed, DecodeAll, EachOnce, OpenPath, Append, Decode, FaceOf, Aligned, VertexOf;
      ghost var c := C();
      o, q := Output([], [], []), [];
      PrintStart(faces, c, valid);
      NoStrips(faces, c);
      for i := 0 to |faces|
        invariant C() == c.(deg := deg) && DegreesNow(|faces|, c, deg, i)
        invariant Laid(o) && Shows(faces, DecodeAll(o, |o.begins|), q) && Printed(|faces|, c, q, i)
        invariant PathStrips(faces, c, o, LowerEnds(|faces|, c, i))
      {
        ghost var deg0, s := deg, [];
        LowerEndsNext(|faces|, c, i);
        PrintPlace(faces, c, valid, deg, i);
        if deg[4 * i] < 2 {
          ghost var o0 := o;
          o, s := ExtractStrip(4 * i, o, c);
          DecodeAppend(o0, s);
          PathStripsNext(faces, c, o0, s, LowerEnds(|faces|, c, i), 4 * i);
          assert |o.begins| == |o0.begins| + 1 by { AppendLonger(o0, s); }
          ShowsBoth(faces, DecodeAll(o0, |o0.begins|), q, Decode(s), c.path[4 * i]);
          PrintedNext(faces, c, valid, deg0, deg, q, i);
          q := q + c.path[4 * i];
        } else {
          PrintedSkip(faces, c, valid, deg0, q, i);
        }
      }
      PrintEnd(faces, c, valid, q);
    }

    /** `execute`: queues all free faces, grows the strips until no two can be joined, and prints them, each path as one
        strip, from the lower of its ends, in order of these. Read back, they show every face just once, backwards. */
    method Execute() returns (o: Output, count: nat, ghost q: seq<nat>, ghost run: seq<Growth>, ghost grown: Chains)
      requires ProperFaces(faces) && Growing(faces, C(), valid) && heap == map[]
      modifies this
      ensures Laid(o) && count == |o.begins| && Shows(faces, DecodeAll(o, count), q) && EachOnce(|faces|, q)
      ensures Forest(|faces|, grown) && Maximal(faces, grown) && PathStrips(faces, grown, o, LowerEnds(|faces|, grown, |faces|))
      ensures GrowthRun(|faces|, run) && run[0].c == old(C()) && run[0].valid == old(valid)
      ensures FirstQueue(|faces|, old(pair), old(valid), run[0].heap, |faces|)
      ensures run[|run| - 1].heap == map[] && run[|run| - 1].c == grown
    {
      hide PathStrips, LowerEnds, GrowthRun, FirstQueue, Forest, Growing, ProperFaces, Maximal, Shows, EachOnce, FaceOf, Aligned, QueuedUpTo, QueueOk, AllQueued, ValueOf;
      GrowingSize(faces, C(), valid);
      NoneQueued(|faces|, pair, valid);
      for i := 0 to |faces|
        invariant Growing(faces, C(), valid) && |pair| == |valid| == 4 * |faces|
        invariant QueueOk(|faces|, valid, heap, {}) && QueuedUpTo(|faces|, valid, heap, i)
        invariant C() == old(C()) && valid == old(valid) && FirstQueue(|faces|, pair, valid, heap, i)
      {
        FaceOutNow(faces, C(), valid, i);
        QueueFace(|faces|, pair, valid, heap, i);
        FirstQueueNext(|faces|, pair, valid, heap, i);
        AddToHeap(4 * i);
      }
      QueuedUpToAll(|faces|, valid, heap);
      run := Grow();
      GrowingPrintable(faces, C(), valid);
      grown := C();
      o, q := Print();
      count := |o.begins|;
    }
  }

  lemma GrowthStart(n: nat, s: Growth)
    ensures GrowthRun(n, [s])
  {
  }

  lemma NoneQueued(n: nat, pair: seq<nat>, valid: seq<bool>)
    requires |pair| == |valid| == 4 * n
    ensures FirstQueue(n, pair, valid, map[], 0)
  {
    forall f: nat ensures QueuedFirst(n, pair, valid, map[], 0, f) {
    }
  }

  lemma QueueFacts(n: nat, valid: seq<bool>, heap: map<nat, nat>, t: nat)
    requires QueueOk(n, valid, heap, {}) && LeastFace(heap, t)
    ensures t in heap && IsFace(n, t) && heap[t] > 0 && |valid| == 4 * n
  {
  }

  lemma CutStart(n: nat, s: Growth, t: nat)
    ensures CutTo(n, s.valid, s.c.pair, t, 1) == s.valid && HomeTo(n, s, t, 1)
  {
  }

  lemma CutNext(n: nat, s: Growth, t: nat, i: nat)
    requires i >= 1 && HomeTo(n, s, t, i)
    requires var v := CutTo(n, s.valid, s.c.pair, t, i); |v| == |s.c.pair| == 4 * n && t + i < 4 * n && (v[t + i] ==> s.c.pair[t + i] < 4 * n)
    ensures var v := CutTo(n, s.valid, s.c.pair, t, i);
      && CutTo(n, s.valid, s.c.pair, t, i + 1) == (if v[t + i] then Cut(v, s.c.pair, t + i) else v)
      && ((v[t + i] ==> s.c.pair[t] == FaceOf(s.c.pair[t + i])) ==> HomeTo(n, s, t, i + 1))
  {
  }

  lemma CutIs(valid: seq<bool>, pair: seq<nat>, e: nat)
    requires e < |valid| == |pair| && pair[e] < |valid|
    ensures Cut(valid, pair, e) == valid[e := false][pair[e] := false]
  {
  }

  /** The lower ends of the paths, in order, as far as face i. */
  ghost function LowerEnds(n: nat, c: Chains, i: nat): (fs: seq<nat>) {
    if i == 0 then [] else LowerEnds(n, c, i - 1) + if LowerEnd(n, c, 4 * (i - 1)) then [4 * (i - 1)] else []
  }

  ghost predicate LowerEnd(n: nat, c: Chains, f: nat) {
    End(n, c, f) && f <= c.pair[f]
  }

  lemma LowerEndsNext(n: nat, c: Chains, i: nat)
    ensures LowerEnds(n, c, i + 1) == LowerEnds(n, c, i) + if LowerEnd(n, c, 4 * i) then [4 * i] else []
    ensures LowerEnds(n, c, i) + [] == LowerEnds(n, c, i)
  {
  }

  /** Every strip shows the faces of one path, in order, from the end given. */
  ghost predicate PathStrips(faces: seq<Face>, c: Chains, o: Output, ends: seq<nat>) {
    Laid(o) && |ends| == |o.begins|
    && forall k: nat {:trigger StripAt(o, k)} | k < |o.begins| :: ShowsPath(faces, c, StripAt(o, k), ends[k])
  }

  ghost predicate ShowsPath(faces: seq<Face>, c: Chains, s: seq<nat>, f: nat) {
    End(|faces|, c, f) && Shows(faces, Decode(s), c.path[f])
  }

  lemma NoStrips(faces: seq<Face>, c: Chains)
    ensures PathStrips(faces, c, Output([], [], []), LowerEnds(|faces|, c, 0))
  {
  }

  lemma PathStripsNext(faces: seq<Face>, c: Chains, o: Output, s: seq<nat>, ends: seq<nat>, f: nat)
    requires PathStrips(faces, c, o, ends) && End(|faces|, c, f) && Shows(faces, Decode(s), c.path[f])
    ensures PathStrips(faces, c, Append(o, s), ends + [f])
  {
    hide End, Shows, Decode, StripAt;
    AppendStrips(o, s, |o.begins|);
    forall k: nat | k < |Append(o, s).begins| ensures ShowsPath(faces, c, StripAt(Append(o, s), k), (ends + [f])[k]) {
      AppendStrips(o, s, k);
    }
  }

  ghost predicate QueuedUpTo(n: nat, valid: seq<bool>, heap: map<nat, nat>, i: nat) {
    |valid| == 4 * n && forall e: nat | IsSide(n, e) && e < 4 * i && valid[e] :: FaceOf(e) in heap
  }

  lemma GrowingSize(faces: seq<Face>, c: Chains, valid: seq<bool>)
    requires Growing(faces, c, valid)
    ensures |c.pair| == |valid| == 4 * |faces| && QueueOk(|faces|, valid, map[], {}) && QueuedUpTo(|faces|, valid, map[], 0)
  {
  }

  lemma QueueFace(n: nat, pair: seq<nat>, valid: seq<bool>, heap: map<nat, nat>, i: nat)
    requires |pair| == |valid| == 4 * n && i < n && QueueOk(n, valid, heap, {}) && QueuedUpTo(n, valid, heap, i)
    requires !valid[4 * i] ==> !valid[4 * i + 1] && !valid[4 * i + 2] && !valid[4 * i + 3]
    ensures IsFace(n, 4 * i)
    ensures var heap' := if valid[4 * i] && ValueOf(pair, valid, 4 * i) > 0 then heap[4 * i := ValueOf(pair, valid, 4 * i)] else heap;
      QueueOk(n, valid, heap', {}) && QueuedUpTo(n, valid, heap', i + 1)
  {
    forall e: nat | IsSide(n, e) && 4 * i <= e < 4 * i + 4 ensures FaceOf(e) == 4 * i && (e == 4 * i + 1 || e == 4 * i + 2 || e == 4 * i + 3) {
      FaceIs(e, i);
    }
  }

  lemma QueuedUpToAll(n: nat, valid: seq<bool>, heap: map<nat, nat>)
    requires QueuedUpTo(n, valid, heap, n)
    ensures AllQueued(n, valid, heap)
  {
  }

  lemma GrowingPrintable(faces: seq<Face>, c: Chains, valid: seq<bool>)
    requires Growing(faces, c, valid) && ProperFaces(faces)
    ensures Printable(faces, c, valid)
  {
  }

  lemma FaceOutNow(faces: seq<Face>, c: Chains, valid: seq<bool>, i: nat)
    requires Growing(faces, c, valid) && i < |faces|
    ensures |valid| == 4 * |faces| && (!valid[4 * i] ==> !valid[4 * i + 1] && !valid[4 * i + 2] && !valid[4 * i + 3])
  {
    FaceSides(faces, i);
    assert DegreeOk(|faces|, valid, c.used, c.deg, 4 * i);
  }

  // ---------- printing all paths ----------

  /** q holds every face, once. */
  ghost predicate EachOnce(n: nat, q: seq<nat>) {
    && (forall i, j | 0 <= i < |q| && 0 <= j < |q| && q[i] == q[j] :: i == j)
    && (forall h: nat {:trigger IsFace(n, h)} {:trigger h in q} :: h in q <==> IsFace(n, h))
  }

  /** The path from f is printed before face i is looked at. */
  ghost predicate Passed(n: nat, c: Chains, f: nat, i: nat) {
    End(n, c, f) && (f < 4 * i || c.pair[f] < 4 * i)
  }

  /** The degrees then: both ends of a longer path printed have theirs set to two. */
  ghost predicate DegreesNow(n: nat, c: Chains, deg: seq<nat>, i: nat) {
    Shaped(n, c) && |deg| == 4 * n && forall f: nat {:trigger Passed(n, c, f, i)} {:trigger deg[f]} | IsFace(n, f) ::
      deg[f] == if c.deg[f] == 1 && Passed(n, c, f, i) then 2 else c.deg[f]
  }

  /** q has, once each, the faces of the paths printed then. */
  ghost predicate Printed(n: nat, c: Chains, q: seq<nat>, i: nat) {
    && Shaped(n, c)
    && (forall j, k | 0 <= j < |q| && 0 <= k < |q| && q[j] == q[k] :: j == k)
    && (forall h: nat {:trigger PrintedFace(n, c, h, i)} {:trigger h in q} :: h in q <==> PrintedFace(n, c, h, i))
  }

  ghost predicate PrintedFace(n: nat, c: Chains, h: nat, i: nat) {
    exists f: nat {:trigger PrintedOn(n, c, f, h, i)} :: PrintedOn(n, c, f, h, i)
  }

  ghost predicate PrintedOn(n: nat, c: Chains, f: nat, h: nat, i: nat) {
    Passed(n, c, f, i) && h in c.path[f]
  }

  lemma AppendLonger(o: Output, s: seq<nat>)
    ensures |Append(o, s).begins| == |o.begins| + 1
  {
  }

  lemma SinglePath(n: nat, c: Chains, f: nat)
    requires Forest(n, c) && IsFace(n, f) && Shaped(n, c) && c.deg[f] == 0
    ensures c.path[f] == [f]
  {
    assert PathOk(n, c, f);
  }

  lemma PrintStart(faces: seq<Face>, c: Chains, valid: seq<bool>)
    requires Printable(faces, c, valid)
    ensures DegreesNow(|faces|, c, c.deg, 0) && Printed(|faces|, c, [], 0)
    ensures Laid(Output([], [], [])) && Shows(faces, DecodeAll(Output([], [], []), 0), [])
  {
  }

  /** A face whose degree is below two now is the end of a path not printed yet. */
  lemma PrintPlace(faces: seq<Face>, c: Chains, valid: seq<bool>, deg: seq<nat>, i: nat)
    requires Printable(faces, c, valid) && DegreesNow(|faces|, c, deg, i) && i < |faces|
    ensures |deg| == 4 * |faces| && IsFace(|faces|, 4 * i) && |c.path| == 4 * |faces|
    ensures deg[4 * i] == 0 ==> c.deg[4 * i] == 0
    ensures deg[4 * i] == 1 ==> OpenPath(|faces|, c, deg, 4 * i) && c.pair[4 * i] < 4 * |faces|
    ensures deg[4 * i] < 2 ==> End(|faces|, c, 4 * i)
    ensures deg[4 * i] < 2 <==> LowerEnd(|faces|, c, 4 * i)
  {
    var n, f := |faces|, 4 * i;
    if End(n, c, f) {
      assert PathOk(n, c, f);
      assert Passed(n, c, f, i) <==> c.pair[f] < f;
    } else {
      assert !Passed(n, c, f, i);
    }
    if deg[f] == 1 {
      assert PathOk(n, c, f) && PathOk(n, c, c.pair[f]) && !Passed(n, c, f, i) && !Passed(n, c, c.pair[f], i);
      forall j | 0 < j < |c.path[f]| - 1 ensures c.path[f][j] < 4 * n && deg[c.path[f][j]] == 2 {
        assert StepOk(n, c, f, j);
      }
    }
  }

  /** Paths met later share no face with those printed. */
  lemma NotPrinted(n: nat, c: Chains, f: nat, j: nat, i: nat, g: nat)
    requires Forest(n, c) && End(n, c, f) && !Passed(n, c, f, i) && j < |c.path[f]|
    ensures !PrintedOn(n, c, g, c.path[f][j], i)
  {
    assert PathOk(n, c, f);
    if End(n, c, g) { OnlyPath(n, c, f, j, g); }
  }

  lemma OnlyPath(n: nat, c: Chains, f: nat, j: nat, g: nat)
    requires Forest(n, c) && End(n, c, f) && End(n, c, g) && j < |c.path[f]|
    ensures c.path[f][j] in c.path[g] ==> g == f || g == c.pair[f]
  {
    assert PathOk(n, c, g) && Apart(n, c, f, g);
    if c.path[f][j] in c.path[g] {
      var k: nat :| k < |c.path[g]| && c.path[g][k] == c.path[f][j];
      assert Meet(c, f, j, g, k);
    }
  }

  /** Passing a face passes the path it ends, if any, and no other. */
  lemma PassedNext(n: nat, c: Chains, i: nat, g: nat)
    requires Forest(n, c) && i < n && IsFace(n, 4 * i)
    ensures Passed(n, c, g, i + 1) <==> Passed(n, c, g, i) || (End(n, c, 4 * i) && End(n, c, g) && (g == 4 * i || g == c.pair[4 * i]))
  {
    if End(n, c, g) {
      assert PathOk(n, c, g);
      if End(n, c, 4 * i) { assert PathOk(n, c, 4 * i); }
    }
  }

  lemma DegreesNext(n: nat, c: Chains, deg0: seq<nat>, deg: seq<nat>, i: nat)
    requires Forest(n, c) && DegreesNow(n, c, deg0, i) && i < n && IsFace(n, 4 * i) && |deg| == 4 * n
    requires deg0[4 * i] != 1 ==> deg == deg0
    requires deg0[4 * i] == 1 ==> c.pair[4 * i] < 4 * n && deg == deg0[4 * i := 2][c.pair[4 * i] := 2]
    ensures DegreesNow(n, c, deg, i + 1)
  {
    var m := i + 1;
    forall g: nat | IsFace(n, g) ensures deg[g] == if c.deg[g] == 1 && Passed(n, c, g, m) then 2 else c.deg[g] {
      PassedNext(n, c, i, g);
      assert End(n, c, 4 * i) ==> PathOk(n, c, 4 * i);
      assert End(n, c, g) ==> PathOk(n, c, g);
    }
  }

  lemma PrintedSkip(faces: seq<Face>, c: Chains, valid: seq<bool>, deg: seq<nat>, q: seq<nat>, i: nat)
    requires Printable(faces, c, valid) && DegreesNow(|faces|, c, deg, i) && Printed(|faces|, c, q, i)
    requires i < |faces| && IsFace(|faces|, 4 * i) && deg[4 * i] >= 2
    ensures DegreesNow(|faces|, c, deg, i + 1) && Printed(|faces|, c, q, i + 1)
  {
    var n, m := |faces|, i + 1;
    DegreesNext(n, c, deg, deg, i);
    assert Passed(n, c, 4 * i, i) || !End(n, c, 4 * i);
    forall g: nat ensures Passed(n, c, g, m) <==> Passed(n, c, g, i) {
      PassedNext(n, c, i, g);
      assert End(n, c, 4 * i) ==> PathOk(n, c, 4 * i);
      assert End(n, c, g) ==> PathOk(n, c, g);
    }
    forall h: nat ensures PrintedFace(n, c, h, m) <==> PrintedFace(n, c, h, i) {
      SamePrinted(n, c, h, i, m);
    }
  }

  lemma SamePrinted(n: nat, c: Chains, h: nat, i: nat, m: nat)
    requires forall g: nat :: Passed(n, c, g, m) <==> Passed(n, c, g, i)
    ensures PrintedFace(n, c, h, m) <==> PrintedFace(n, c, h, i)
  {
    forall g: nat ensures PrintedOn(n, c, g, h, m) <==> PrintedOn(n, c, g, h, i) {
    }
  }

  lemma PrintedNext(faces: seq<Face>, c: Chains, valid: seq<bool>, deg0: seq<nat>, deg: seq<nat>, q: seq<nat>, i: nat)
    requires Printable(faces, c, valid) && DegreesNow(|faces|, c, deg0, i) && Printed(|faces|, c, q, i)
    requires i < |faces| && IsFace(|faces|, 4 * i) && |deg| == 4 * |faces| && deg0[4 * i] < 2
    requires deg0[4 * i] == 0 ==> deg == deg0
    requires deg0[4 * i] == 1 ==> c.pair[4 * i] < 4 * |faces| && deg == deg0[4 * i := 2][c.pair[4 * i] := 2]
    ensures DegreesNow(|faces|, c, deg, i + 1) && Printed(|faces|, c, q + c.path[4 * i], i + 1)
  {
    var n, f, m := |faces|, 4 * i, i + 1;
    DegreesNext(n, c, deg0, deg, i);
    assert End(n, c, f);
    assert PathOk(n, c, f) && Apart(n, c, f, f);
    assert !Passed(n, c, f, i);
    var p := c.path[f];
    forall j | 0 <= j < |p| ensures p[j] !in q {
      forall g: nat ensures !PrintedOn(n, c, g, p[j], i) { NotPrinted(n, c, f, j, i, g); }
    }
    forall j, k | 0 <= j < |p| && 0 <= k < |p| && p[j] == p[k] ensures j == k {
      assert Meet(c, f, j, f, k);
    }
    forall h: nat ensures h in q + p <==> PrintedFace(n, c, h, m) {
      PrintedWith(n, c, h, i);
    }
  }

  /** The faces printed are those of before and those of the path from face i. */
  lemma PrintedWith(n: nat, c: Chains, h: nat, i: nat)
    requires Forest(n, c) && i < n && End(n, c, 4 * i)
    ensures PrintedFace(n, c, h, i + 1) <==> PrintedFace(n, c, h, i) || h in c.path[4 * i]
  {
    var f, m := 4 * i, i + 1;
    if PrintedFace(n, c, h, m) {
      var g: nat :| PrintedOn(n, c, g, h, m);
      PassedNext(n, c, i, g);
      if Passed(n, c, g, i) { assert PrintedOn(n, c, g, h, i); } else { SameFaces(n, c, f, h); }
    }
    if PrintedFace(n, c, h, i) {
      var g: nat :| PrintedOn(n, c, g, h, i);
      PassedNext(n, c, i, g);
      assert PrintedOn(n, c, g, h, m);
    }
    if h in c.path[f] { assert PrintedOn(n, c, f, h, m); }
  }

  lemma SameFaces(n: nat, c: Chains, f: nat, h: nat)
    requires Forest(n, c) && End(n, c, f)
    ensures c.pair[f] < 4 * n && (h in c.path[c.pair[f]] ==> h in c.path[f])
  {
    var g := c.pair[f];
    assert PathOk(n, c, f) && PathOk(n, c, g) && Apart(n, c, f, g);
    if h in c.path[g] {
      var k: nat :| k < |c.path[g]| && c.path[g][k] == h;
      var j := |c.path[f]| - 1 - k;
      assert Meet(c, f, j, g, k);
      assert c.path[f][j] == h;
    }
  }

  lemma PrintEnd(faces: seq<Face>, c: Chains, valid: seq<bool>, q: seq<nat>)
    requires Printable(faces, c, valid) && Printed(|faces|, c, q, |faces|)
    ensures EachOnce(|faces|, q)
  {
    var n := |faces|;
    forall h: nat ensures PrintedFace(n, c, h, n) <==> IsFace(n, h) {
      if IsFace(n, h) {
        assert OnSomePath(n, c, h);
        var f: nat :| OnPath(n, c, f, h);
        assert PrintedOn(n, c, f, h, n);
      }
      if PrintedFace(n, c, h, n) {
        var f: nat :| PrintedOn(n, c, f, h, n);
        PathFaces(n, c, f, h);
      }
    }
  }

  lemma PathFaces(n: nat, c: Chains, f: nat, h: nat)
    requires Forest(n, c) && End(n, c, f) && h in c.path[f]
    ensures IsFace(n, h)
  {
    assert PathOk(n, c, f);
    var j: nat :| j < |c.path[f]| && c.path[f][j] == h;
    if 0 < j < |c.path[f]| - 1 { assert StepOk(n, c, f, j); }
  }

  // ---------- printing a path ----------

  /** `edge_table`, by the three used bits. */
  function EdgeTable(u1: bool, u2: bool, u3: bool): (k: nat)
    ensures k <= 3
    ensures u1 && !u2 && !u3 ==> k == 1
    ensures !u1 && u2 && !u3 ==> k == 2
    ensures !u1 && !u2 && u3 ==> k == 3
  {
    [0, 1, 2, 1, 3, 1, 2, 1][Bit(u1) + 2 * Bit(u2) + 4 * Bit(u3)]
  }

  ghost predicate Printable(faces: seq<Face>, c: Chains, valid: seq<bool>) {
    && ProperFaces(faces) && Forest(|faces|, c) && MatesOk(faces, c.pair, valid, c.used) && DegreesOk(|faces|, valid, c.used, c.deg)
  }

  /** The path from f has more than one face and, by the degrees as they are now, is not printed yet. */
  ghost predicate OpenPath(n: nat, c: Chains, deg: seq<nat>, f: nat) {
    && End(n, c, f) && c.deg[f] == 1 && |deg| == 4 * n && deg[f] == 1 && c.pair[f] < 4 * n && deg[c.pair[f]] == 1
    && forall i {:trigger c.path[f][i]} | 0 < i < |c.path[f]| - 1 :: c.path[f][i] < 4 * n && deg[c.path[f][i]] == 2
  }

  /** The path from f is printed as far as its i-th face, which is entered by side `entr`. */
  ghost predicate Walking(faces: seq<Face>, c: Chains, f: nat, i: nat, s: seq<nat>, entr: nat, ccw: nat) {
    && Shaped(|faces|, c) && IsSide(|faces|, entr) && EnteredBy(c, f, i, entr)
    && Entering(faces, s, entr) && Turned(|s|, ccw) && Shows(faces, Decode(s), c.path[f][..i])
  }

  /** With every vertex the strip turns the other way. */
  ghost predicate Turned(length: nat, ccw: nat) {
    ccw == (length + 1) % 2
  }

  lemma Turn(length: nat, ccw: nat)
    requires Turned(length, ccw)
    ensures ccw <= 1 && Turned(length + 1, 1 - ccw)
  {
  }

  ghost predicate EnteredBy(c: Chains, f: nat, i: nat, entr: nat) {
    && f < |c.path| && 1 <= i < |c.path[f]| && entr < |c.used| == |c.pair| && c.used[entr]
    && FaceOf(entr) == c.path[f][i] && FaceOf(c.pair[entr]) == c.path[f][i - 1]
  }

  ghost predicate InnerFace(c: Chains, f: nat, i: nat) {
    f < |c.path| && 1 <= i < |c.path[f]| - 1
  }

  /** Side k of the i-th face leads to the next face of the path. */
  ghost predicate ExitSide(faces: seq<Face>, c: Chains, f: nat, i: nat, g: nat, k: nat) {
    && Shaped(|faces|, c) && 1 <= k <= 3 && g + k < 4 * |faces| && c.pair[g + k] < 4 * |faces|
    && IsSide(|faces|, g + k) && Mates(faces, c.pair, g + k) && FaceOf(g + k) == g && EnteredBy(c, f, i + 1, c.pair[g + k])
  }

  lemma ExitIs(faces: seq<Face>, c: Chains, valid: seq<bool>, f: nat, i: nat, g: nat, k: nat)
    requires Printable(faces, c, valid) && End(|faces|, c, f) && 0 <= i < |c.path[f]| - 1 && g == c.path[f][i] && IsFace(|faces|, g)
    requires 1 <= k <= 3 && LinkedBy(c, g, c.path[f][i + 1], k)
    ensures ExitSide(faces, c, f, i, g, k)
  {
    hide FaceOf, Aligned, Forest, DegreesOk, ProperFaces, SideOf;
    SlotAt(|faces|, g, k);
    assert MateOk(faces, c.pair, valid, c.used, g + k);
  }

  lemma FirstFacts(faces: seq<Face>, c: Chains, valid: seq<bool>, deg: seq<nat>, f: nat)
    requires Printable(faces, c, valid) && OpenPath(|faces|, c, deg, f)
    ensures Shaped(|faces|, c) && |deg| == 4 * |faces| && f + 3 < 4 * |faces| && |c.path[f]| > 1 && c.pair[f] != f && c.pair[f] < 4 * |faces|
    ensures var k := EdgeTable(c.used[f + 1], c.used[f + 2], c.used[f + 3]); ExitSide(faces, c, f, 0, f, k)
  {
    FaceSlots(|faces|, f);
    assert PathOk(|faces|, c, f) && StepOk(|faces|, c, f, 0) && DegreeOk(|faces|, valid, c.used, c.deg, f);
    hide Printable, OpenPath, FaceOf, Aligned, Forest, ExitSide;
    var k: nat :| LinkedBy(c, c.path[f][0], c.path[f][1], k);
    ExitIs(faces, c, valid, f, 0, f, k);
    OnlyUsed(c, f, k);
  }

  lemma OnlyUsed(c: Chains, f: nat, k: nat)
    requires |c.used| == |c.deg| && f + 3 < |c.used| && c.deg[f] == 1 && 1 <= k <= 3 && c.used[f + k]
    requires c.deg[f] == Bit(c.used[f + 1]) + Bit(c.used[f + 2]) + Bit(c.used[f + 3])
    ensures EdgeTable(c.used[f + 1], c.used[f + 2], c.used[f + 3]) == k
  {
    assert k == 1 || k == 2 || k == 3;
  }

  lemma FirstWalking(faces: seq<Face>, c: Chains, valid: seq<bool>, f: nat, s: seq<nat>, k: nat)
    requires Printable(faces, c, valid) && End(|faces|, c, f) && ExitSide(faces, c, f, 0, f, k)
    requires s == [VertexOf(faces, f, k), VertexOf(faces, f, CircleEdge(k)), VertexOf(faces, f, CircleEdge(CircleEdge(k)))]
    ensures Walking(faces, c, f, 1, s, c.pair[f + k], 0) && FaceOf(c.pair[f + k]) < 4 * |faces|
  {
    FaceSlots(|faces|, f);
    assert PathOk(|faces|, c, f);
    assert c.path[f][..1] == [f];
    SlotDigit(|faces|, f, k);
    hide Forest, MatesOk, DegreesOk, PathOk;
    PrintFirst(faces, f + k, c.pair[f + k]);
  }

  lemma SlotDigit(n: nat, f: nat, k: nat)
    requires IsFace(n, f) && 1 <= k <= 3
    ensures (f + k) % 4 == k && (f + k) / 4 == f / 4 && f + k < 4 * n
  {
  }

  lemma WalkingFacts(faces: seq<Face>, c: Chains, f: nat, i: nat, s: seq<nat>, entr: nat, ccw: nat)
    requires Walking(faces, c, f, i, s, entr, ccw)
    ensures Shaped(|faces|, c) && IsSide(|faces|, entr) && EnteredBy(c, f, i, entr) && f < |c.path| && 1 <= i < |c.path[f]|
    ensures Entering(faces, s, entr) && |s| >= 2 && Turned(|s|, ccw) && Shows(faces, Decode(s), c.path[f][..i])
    ensures FaceOf(entr) == c.path[f][i] && FaceOf(entr) < 4 * |faces| && entr < 4 * |faces|
  {
  }

  /** Of the two sides `expected_idx` offers just one is used, and it leads on. */
  ghost predicate Choice(faces: seq<Face>, c: Chains, f: nat, i: nat, g: nat, k: nat) {
    && 1 <= k <= 3 && g + 3 < |c.used|
    && (c.used[g + ExpectedIdx(0, k)] <==> !c.used[g + ExpectedIdx(1, k)])
    && (c.used[g + ExpectedIdx(0, k)] ==> ExitSide(faces, c, f, i, g, ExpectedIdx(0, k)))
    && (c.used[g + ExpectedIdx(1, k)] ==> ExitSide(faces, c, f, i, g, ExpectedIdx(1, k)))
  }

  lemma InnerFacts(faces: seq<Face>, c: Chains, valid: seq<bool>, f: nat, i: nat, entr: nat)
    requires Printable(faces, c, valid) && End(|faces|, c, f) && IsSide(|faces|, entr) && EnteredBy(c, f, i, entr) && InnerFace(c, f, i)
    ensures Choice(faces, c, f, i, FaceOf(entr), entr % 4)
  {
    hide FaceOf, Aligned, Forest, MatesOk, DegreesOk, ExitSide;
    var n, g := |faces|, FaceOf(entr);
    SideSlot(n, entr);
    var k := InnerExit(faces, c, valid, f, i, entr);
    ExitIs(faces, c, valid, f, i, g, k);
    InnerDegree(faces, c, valid, g, entr, k);
  }

  /** The next face is linked by another side than the last one was: it is another face. */
  lemma InnerExit(faces: seq<Face>, c: Chains, valid: seq<bool>, f: nat, i: nat, entr: nat) returns (k: nat)
    requires Forest(|faces|, c) && End(|faces|, c, f) && InnerFace(c, f, i) && EnteredBy(c, f, i, entr)
    ensures LinkedBy(c, FaceOf(entr), c.path[f][i + 1], k) && FaceOf(entr) + k != entr
    ensures c.deg[c.path[f][i]] == 2
  {
    assert PathOk(|faces|, c, f) && StepOk(|faces|, c, f, i) && Apart(|faces|, c, f, f);
    assert Meet(c, f, i - 1, f, i + 1);
    k :| LinkedBy(c, c.path[f][i], c.path[f][i + 1], k);
  }

  lemma InnerDegree(faces: seq<Face>, c: Chains, valid: seq<bool>, g: nat, entr: nat, k: nat)
    requires DegreesOk(|faces|, valid, c.used, c.deg) && IsSide(|faces|, entr) && g == FaceOf(entr) && c.deg[g] == 2
    requires 1 <= k <= 3 && g + k != entr && c.used[entr] && g + k < |c.used| && c.used[g + k]
    ensures 1 <= entr % 4 <= 3 && g + 3 < |c.used|
    ensures k == ExpectedIdx(0, entr % 4) || k == ExpectedIdx(1, entr % 4)
    ensures c.used[g + ExpectedIdx(0, entr % 4)] <==> k == ExpectedIdx(0, entr % 4)
    ensures c.used[g + ExpectedIdx(1, entr % 4)] <==> k == ExpectedIdx(1, entr % 4)
  {
    hide FaceOf, Aligned;
    SideSlot(|faces|, entr);
    FaceSlots(|faces|, g);
    assert DegreeOk(|faces|, valid, c.used, c.deg, g);
  }

  lemma NextWalking(faces: seq<Face>, c: Chains, f: nat, i: nat, s: seq<nat>, entr: nat, ccw: nat, k: nat)
    requires ProperFaces(faces) && Entering(faces, s, entr) && InnerFace(c, f, i) && Shaped(|faces|, c) && c.path[f][i] == FaceOf(entr)
    requires Shows(faces, Decode(s), c.path[f][..i]) && Turned(|s| + 1, ccw) && k == ExpectedIdx(ccw, entr % 4)
    requires ExitSide(faces, c, f, i, FaceOf(entr), k)
    ensures Walking(faces, c, f, i + 1, s + [VertexOf(faces, FaceOf(entr), entr % 4)], c.pair[FaceOf(entr) + k], ccw)
    ensures FaceOf(c.pair[FaceOf(entr) + k]) < 4 * |faces|
  {
    hide ProperFaces, VertexOf, Decode, Shows, Turned, FaceOf, Aligned;
    SameFace(faces, entr);
    TurnedBefore(|s|, ccw);
    GoOn(faces, s, entr, ccw, c.pair[FaceOf(entr) + k]);
    ShowNext(faces, c.path[f], i, s, entr);
  }

  lemma TurnedBefore(length: nat, ccw: nat)
    requires Turned(length + 1, ccw)
    ensures ccw == length % 2
  {
  }

  lemma SameFace(faces: seq<Face>, e: nat)
    requires IsSide(|faces|, e)
    ensures VertexOf(faces, FaceOf(e), e % 4) == VertexOf(faces, e, e % 4)
  {
    assert FaceOf(e) / 4 == e / 4;
  }

  lemma ShowNext(faces: seq<Face>, p: seq<nat>, i: nat, s: seq<nat>, entr: nat)
    requires ProperFaces(faces) && Entering(faces, s, entr) && i < |p| && p[i] == FaceOf(entr) && Shows(faces, Decode(s), p[..i])
    ensures Shows(faces, Decode(s + [VertexOf(faces, entr, entr % 4)]), p[..i + 1])
  {
    PrintFace(faces, s, entr);
    assert FaceOf(entr) / 4 == entr / 4;
    assert FaceOf(entr) < 4 * |faces|;
    hide ProperFaces, VertexOf, Decode, Entering;
    var d :| Decode(s + [VertexOf(faces, entr, entr % 4)]) == Decode(s) + [d] && Backwards(faces[entr / 4], d);
    ShowsMore(faces, Decode(s), p[..i], d, p[i]);
    assert p[..i + 1] == p[..i] + [p[i]];
  }

  /** The last face of the path. */
  lemma LastFacts(faces: seq<Face>, c: Chains, f: nat, i: nat, s: seq<nat>, entr: nat, ccw: nat)
    requires ProperFaces(faces) && Walking(faces, c, f, i, s, entr, ccw) && i == |c.path[f]| - 1
    ensures 1 <= entr % 4 <= 3 && Shows(faces, Decode(s + [VertexOf(faces, FaceOf(entr), entr % 4)]), c.path[f])
  {
    SameFace(faces, entr);
    ShowNext(faces, c.path[f], i, s, entr);
    assert c.path[f][..i + 1] == c.path[f];
  }

  /** Where the walk is on the path: not at its end just when the degree there is not one. */
  lemma WalkPlace(faces: seq<Face>, c: Chains, f: nat, i: nat, deg: seq<nat>, g: nat)
    requires Forest(|faces|, c) && OpenPath(|faces|, c, deg, f) && 1 <= i < |c.path[f]| && g == c.path[f][i]
    ensures g < |deg| && (deg[f := 2][g] != 1 <==> i < |c.path[f]| - 1)
    ensures i == |c.path[f]| - 1 ==> g == c.pair[f]
  {
    assert PathOk(|faces|, c, f);
  }

  /** After `apply_edge`, but for the queue: the state is as it should be, with the paths joined. */
  lemma ApplyOk(faces: seq<Face>, c: Chains, valid: seq<bool>, r: seq<bool>, d: Chains, e1: nat, e2: nat)
    requires Growing(faces, c, valid) && Joinable(|faces|, c, e1, e2) && valid[e1] && valid[e2]
    requires d == Join(|faces|, c, e1, e2) && Applied(|faces|, d, valid, r, e1, e2) && MatesOk(faces, c.pair, r, d.used)
    ensures Growing(faces, d, r) && DegreesOk(|faces|, r, d.used, d.deg)
  {
    hide Forest, Applied, Settled, DegreesOk, MatesOk, Join, AllMated;
    JoinForest(|faces|, c, e1, e2);
    JoinSlots(|faces|, c, e1, e2);
    PairOfSidesStays(faces, c.pair, d.pair, r, d.used);
    MatedStays(faces, c.pair, d.pair);
    AppliedDegrees(faces, c, valid, r, e1, e2);
    AppliedSettled(faces, c, valid, r, e1, e2);
  }

  lemma ApplyFacts(faces: seq<Face>, c: Chains, valid: seq<bool>, e1: nat)
    requires Growing(faces, c, valid) && IsSide(|faces|, e1) && valid[e1] && Joinable(|faces|, c, e1, c.pair[e1])
    ensures Shaped(|faces|, c) && c.pair[e1] < 4 * |faces| && valid[c.pair[e1]]
    ensures FaceOf(e1) < 4 * |faces| && FaceOf(c.pair[e1]) < 4 * |faces| && c.pair[FaceOf(c.pair[e1])] != FaceOf(e1)
    ensures c.pair[FaceOf(e1)] < 4 * |faces| && c.pair[FaceOf(c.pair[e1])] < 4 * |faces|
  {
    UsedMates(faces, c, valid, e1);
    assert MateOk(faces, c.pair, valid, c.used, e1);
    JoinIn(|faces|, c, FaceOf(e1), FaceOf(c.pair[e1]));
  }

  lemma UseFacts(n: nat, c: Chains, e1: nat, e2: nat)
    requires Joinable(n, c, e1, e2)
    ensures Shaped(n, c) && e1 < 4 * n && e2 < 4 * n && FaceOf(e1) < 4 * n && FaceOf(e2) < 4 * n && FaceOf(e1) != FaceOf(e2)
    ensures IsFace(n, FaceOf(e1)) && IsFace(n, FaceOf(e2)) && c.pair[e1] == e2
    ensures Join(n, c, e1, e2).used == c.used[e1 := true][e2 := true]
    ensures Join(n, c, e1, e2).deg == c.deg[FaceOf(e1) := c.deg[FaceOf(e1)] + 1][FaceOf(e2) := c.deg[FaceOf(e2)] + 1]
  {
    SideSlot(n, e1);
    SideSlot(n, e2);
  }

  lemma JoinIs(n: nat, c: Chains, d: Chains, e1: nat, e2: nat)
    requires Joinable(n, c, e1, e2) && FaceOf(e1) < |c.pair| && FaceOf(e2) < |c.pair|
    requires var a, b := c.pair[FaceOf(e1)], c.pair[FaceOf(e2)]; a < |c.pair| && b < |c.pair| && d.pair == c.pair[b := a][a := b]
    requires var j := Join(n, c, e1, e2); d.used == j.used && d.deg == j.deg && d.path == j.path
    ensures d == Join(n, c, e1, e2)
  {
  }

  lemma AppliedShrinks(n: nat, d: Chains, valid: seq<bool>, r: seq<bool>, e1: nat, e2: nat)
    requires Applied(n, d, valid, r, e1, e2) && valid[e1]
    ensures Live(r) < Live(valid)
  {
    assert e1 in Live(valid) && e1 !in Live(r);
  }

  /** ... and the queue, with the two faces to be queued again. */
  lemma ApplyQueue(faces: seq<Face>, d: Chains, valid: seq<bool>, r: seq<bool>, heap: map<nat, nat>, e1: nat, e2: nat)
    requires Applied(|faces|, d, valid, r, e1, e2) && DegreesOk(|faces|, r, d.used, d.deg)
    requires QueueOk(|faces|, valid, heap, {}) && Queued(|faces|, valid, heap, FaceOf(e1))
    ensures QueueOk(|faces|, r, heap, {FaceOf(e1), FaceOf(e2)}) && Queued(|faces|, r, heap, FaceOf(e1))
    ensures FaceOut(|faces|, r, FaceOf(e1)) && FaceOut(|faces|, r, FaceOf(e2))
  {
    hide FaceOf, Aligned, Touches;
    SideSlot(|faces|, e1);
    SideSlot(|faces|, e2);
    assert DegreeOk(|faces|, r, d.used, d.deg, FaceOf(e1)) && DegreeOk(|faces|, r, d.used, d.deg, FaceOf(e2));
    forall f | f in heap && f != FaceOf(e1) && f != FaceOf(e2) ensures r[f] {
      FaceTouches(|faces|, d.pair, f, FaceOf(e1));
      FaceTouches(|faces|, d.pair, f, FaceOf(e2));
      FaceSlots(|faces|, f);
    }
  }

  /** A face that is out has no free side. */
  ghost predicate FaceOut(n: nat, valid: seq<bool>, f: nat) {
    |valid| == 4 * n && IsFace(n, f) && (!valid[f] ==> !valid[f + 1] && !valid[f + 2] && !valid[f + 3])
  }

  lemma DetachStart(faces: seq<Face>, c: Chains, valid: seq<bool>, f: nat)
    requires MatesOk(faces, c.pair, valid, c.used) && IsFace(|faces|, f)
    ensures MatesOk(faces, c.pair, valid[f := false], c.used) && DetachedTo(|faces|, c.pair, valid, valid[f := false], f, 0)
  {
    var r := valid[f := false];
    forall e: nat | IsSide(|faces|, e) ensures MateOk(faces, c.pair, r, c.used, e) {
      assert MateOk(faces, c.pair, valid, c.used, e);
    }
  }

  /** What holds of slot e, if it is a side. */
  lemma SideFacts(faces: seq<Face>, c: Chains, valid: seq<bool>, e: nat)
    requires MatesOk(faces, c.pair, valid, c.used)
    ensures |c.pair| == |valid| == |c.used| == 4 * |faces|
    ensures IsSide(|faces|, e) && valid[e] ==> Mates(faces, c.pair, e) && valid[c.pair[e]] && c.pair[e] != e && !IsFace(|faces|, c.pair[e])
  {
    if IsSide(|faces|, e) { assert MateOk(faces, c.pair, valid, c.used, e); }
  }
}
