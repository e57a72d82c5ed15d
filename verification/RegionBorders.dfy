/** Which regions touch the border of the volume: slices next to its faces are read, and where the whole volume ends, the
    outermost slice is cleared instead. */
module RegionBorders {
  import opened VoxelEdges

  // ---------- slices ----------

  function Length(d: Dims, axis: nat): (n: nat) {
    if axis == 0 then d.x else if axis == 1 then d.y else d.z
  }

  function Coord(d: Dims, axis: nat, j: nat): (c: nat)
    requires d.x > 0 && d.y > 0
  {
    if axis == 0 then XOf(d, j) else if axis == 1 then YOf(d, j) else ZOf(d, j)
  }

  /** The other two axes, in the order in which a slice is read: the inner loop first. */
  function Across(axis: nat): (a: nat) {
    if axis == 0 then 1 else 0
  }

  function Along(axis: nat): (a: nat) {
    if axis == 2 then 1 else 2
  }

  function At(d: Dims, axis: nat, n: nat, p: nat, q: nat): (j: nat) {
    if axis == 0 then Index(d, n, p, q) else if axis == 1 then Index(d, p, n, q) else Index(d, p, q, n)
  }

  lemma AtCoords(d: Dims, axis: nat, n: nat, p: nat, q: nat)
    requires axis < 3 && n < Length(d, axis) && p < Length(d, Across(axis)) && q < Length(d, Along(axis))
    ensures var j := At(d, axis, n, p, q);
      j < Size(d) && Coord(d, axis, j) == n && Coord(d, Across(axis), j) == p && Coord(d, Along(axis), j) == q
  {
    hide Index, Size, XOf, YOf, ZOf;
    var x, y, z := if axis == 0 then n else p, if axis == 1 then n else if axis == 0 then p else q, if axis == 2 then n else q;
    IndexInside(d, x, y, z);
    Coordinates(d, x, y, z);
  }

  lemma CoordsAt(d: Dims, axis: nat, j: nat)
    requires axis < 3 && j < Size(d)
    ensures d.x > 0 && d.y > 0 && forall a | 0 <= a < 3 :: Coord(d, a, j) < Length(d, a)
    ensures At(d, axis, Coord(d, axis, j), Coord(d, Across(axis), j), Coord(d, Along(axis), j)) == j
  {
    hide Index, Size, XOf, YOf, ZOf;
    AllIndexed(d, j);
  }

  /** Voxel j is in slice n, and off the faces on the other axes. */
  ghost predicate InSlice(d: Dims, axis: nat, n: nat, j: nat) {
    && axis < 3 && d.x > 0 && d.y > 0 && j < Size(d) && Coord(d, axis, j) == n
    && 0 < Coord(d, Across(axis), j) < Length(d, Across(axis)) - 1 && 0 < Coord(d, Along(axis), j) < Length(d, Along(axis)) - 1
  }

  /** Before position (p, q) of the slice, or at all those before it. */
  ghost predicate Earlier(d: Dims, axis: nat, j: nat, p: nat, q: nat) {
    d.x > 0 && d.y > 0 && (Coord(d, Along(axis), j) < q || (Coord(d, Along(axis), j) == q && Coord(d, Across(axis), j) < p))
  }

  // ---------- flags ----------

  ghost predicate Seen(ids: seq<nat>, d: Dims, axis: nat, n: nat, p: nat, q: nat, l: nat) {
    exists j: nat {:trigger InSlice(d, axis, n, j)} :: InSlice(d, axis, n, j) && j < |ids| && ids[j] == l && Earlier(d, axis, j, p, q)
  }

  ghost predicate FlaggedTo(ids: seq<nat>, d: Dims, axis: nat, n: nat, p: nat, q: nat, flags0: seq<bool>, flags: seq<bool>) {
    |flags| == |flags0| && forall l: nat {:trigger flags[l]} | l < |flags| :: flags[l] <==> flags0[l] || Seen(ids, d, axis, n, p, q, l)
  }

  lemma FlagNext(ids: seq<nat>, d: Dims, axis: nat, n: nat, p: nat, q: nat, flags0: seq<bool>, flags: seq<bool>)
    requires FlaggedTo(ids, d, axis, n, p, q, flags0, flags) && |ids| == Size(d) && axis < 3 && n < Length(d, axis)
    requires 1 <= p && p + 1 < Length(d, Across(axis)) && 1 <= q && q + 1 < Length(d, Along(axis))
    ensures var j := At(d, axis, n, p, q); j < |ids| && (ids[j] < |flags| ==> FlaggedTo(ids, d, axis, n, p + 1, q, flags0, flags[ids[j] := true]))
  {
    hide Size, At, Coord;
    var j := At(d, axis, n, p, q);
    AtCoords(d, axis, n, p, q);
    assert InSlice(d, axis, n, j);
    if ids[j] < |flags| {
      var flags' := flags[ids[j] := true];
      forall l: nat | l < |flags| ensures flags'[l] <==> flags0[l] || Seen(ids, d, axis, n, p + 1, q, l) {
        SeenNext(ids, d, axis, n, p, q, l);
      }
    }
  }

  lemma SeenNext(ids: seq<nat>, d: Dims, axis: nat, n: nat, p: nat, q: nat, l: nat)
    requires |ids| == Size(d) && axis < 3 && n < Length(d, axis)
    requires 1 <= p && p + 1 < Length(d, Across(axis)) && 1 <= q && q + 1 < Length(d, Along(axis))
    ensures At(d, axis, n, p, q) < |ids|
    ensures Seen(ids, d, axis, n, p + 1, q, l) <==> Seen(ids, d, axis, n, p, q, l) || ids[At(d, axis, n, p, q)] == l
  {
    hide Size, At, Coord;
    var j := At(d, axis, n, p, q);
    AtCoords(d, axis, n, p, q);
    assert InSlice(d, axis, n, j) && Earlier(d, axis, j, p + 1, q);
    if Seen(ids, d, axis, n, p + 1, q, l) {
      var i: nat :| InSlice(d, axis, n, i) && i < |ids| && ids[i] == l && Earlier(d, axis, i, p + 1, q);
      CoordsAt(d, axis, i);
      if i != j { assert Earlier(d, axis, i, p, q); }
    }
    if Seen(ids, d, axis, n, p, q, l) {
      var i: nat :| InSlice(d, axis, n, i) && i < |ids| && ids[i] == l && Earlier(d, axis, i, p, q);
      assert Earlier(d, axis, i, p + 1, q);
    }
  }

  /** At the end of a row, and of the slice. */
  lemma FlagRow(ids: seq<nat>, d: Dims, axis: nat, n: nat, p: nat, q: nat, flags0: seq<bool>, flags: seq<bool>)
    requires FlaggedTo(ids, d, axis, n, p, q, flags0, flags) && axis < 3 && p + 1 >= Length(d, Across(axis))
    ensures FlaggedTo(ids, d, axis, n, 1, q + 1, flags0, flags)
  {
    hide Size, Coord;
    forall j: nat | InSlice(d, axis, n, j) ensures Earlier(d, axis, j, p, q) <==> Earlier(d, axis, j, 1, q + 1) {
    }
  }

  lemma FlagStart(ids: seq<nat>, d: Dims, axis: nat, n: nat, flags: seq<bool>)
    ensures FlaggedTo(ids, d, axis, n, 1, 1, flags, flags)
  {
    hide Size, Coord;
  }

  /** Some voxel of slice n, off the faces on the other axes, has label l. */
  ghost predicate OnSlice(ids: seq<nat>, d: Dims, axis: nat, n: nat, l: nat) {
    exists j: nat {:trigger InSlice(d, axis, n, j)} :: InSlice(d, axis, n, j) && j < |ids| && ids[j] == l
  }

  lemma FlagEnd(ids: seq<nat>, d: Dims, axis: nat, n: nat, q: nat, flags0: seq<bool>, flags: seq<bool>)
    requires FlaggedTo(ids, d, axis, n, 1, q, flags0, flags) && axis < 3 && q + 1 >= Length(d, Along(axis))
    ensures forall l: nat | l < |flags| :: flags[l] <==> flags0[l] || OnSlice(ids, d, axis, n, l)
  {
    hide Size, Coord;
    forall j: nat | InSlice(d, axis, n, j) ensures Earlier(d, axis, j, 1, q) {
    }
  }

  /** Reads slice n of the axis and flags the regions in it. */
  method FlagSlice(ids: seq<nat>, d: Dims, axis: nat, n: nat, flags: seq<bool>) returns (r: seq<bool>)
    requires |ids| == Size(d) && (forall l | l in ids :: l < |flags|)
    requires axis < 3 && n < Length(d, axis) && Length(d, Across(axis)) >= 2 && Length(d, Along(axis)) >= 2
    ensures |r| == |flags| && forall l: nat | l < |r| :: r[l] <==> flags[l] || OnSlice(ids, d, axis, n, l)
  {
    hide FlaggedTo, Size, At;
    FlagStart(ids, d, axis, n, flags);
    r := flags;
    for q := 1 to Length(d, Along(axis)) - 1
      invariant |r| == |flags| && FlaggedTo(ids, d, axis, n, 1, q, flags, r)
    {
      for p := 1 to Length(d, Across(axis)) - 1
        invariant |r| == |flags| && FlaggedTo(ids, d, axis, n, p, q, flags, r)
      {
        FlagNext(ids, d, axis, n, p, q, flags, r);
        assert ids[At(d, axis, n, p, q)] in ids;
        r := r[ids[At(d, axis, n, p, q)] := true];
      }
      FlagRow(ids, d, axis, n, Length(d, Across(axis)) - 1, q, flags, r);
    }
    FlagEnd(ids, d, axis, n, Length(d, Along(axis)) - 1, flags, r);
  }

  // ---------- clearing ----------

  ghost predicate ClearedTo(ids0: seq<nat>, ids: seq<nat>, d: Dims, axis: nat, n: nat, p: nat, q: nat) {
    && |ids| == |ids0| == Size(d) && axis < 3
    && forall j: nat {:trigger ClearedAt(ids0, ids, d, axis, n, p, q, j)} | j < |ids| :: ClearedAt(ids0, ids, d, axis, n, p, q, j)
  }

  ghost predicate ClearedAt(ids0: seq<nat>, ids: seq<nat>, d: Dims, axis: nat, n: nat, p: nat, q: nat, j: nat) {
    && j < |ids| == |ids0| && d.x > 0 && d.y > 0
    && ids[j] == if Coord(d, axis, j) == n && Earlier(d, axis, j, p, q) then 0 else ids0[j]
  }

  lemma ClearNext(ids0: seq<nat>, ids: seq<nat>, d: Dims, axis: nat, n: nat, p: nat, q: nat)
    requires ClearedTo(ids0, ids, d, axis, n, p, q)
    requires n < Length(d, axis) && p < Length(d, Across(axis)) && q < Length(d, Along(axis))
    ensures var j := At(d, axis, n, p, q); j < |ids| && ClearedTo(ids0, ids[j := 0], d, axis, n, p + 1, q)
  {
    hide Size, At, Coord;
    var k, m := At(d, axis, n, p, q), p + 1;
    AtCoords(d, axis, n, p, q);
    var r := ids[k := 0];
    forall j: nat | j < |r| ensures ClearedAt(ids0, r, d, axis, n, m, q, j) {
      CoordsAt(d, axis, j);
      assert ClearedAt(ids0, ids, d, axis, n, p, q, j);
    }
  }

  lemma ClearRow(ids0: seq<nat>, ids: seq<nat>, d: Dims, axis: nat, n: nat, q: nat)
    requires ClearedTo(ids0, ids, d, axis, n, Length(d, Across(axis)), q)
    ensures ClearedTo(ids0, ids, d, axis, n, 0, q + 1)
  {
    hide Size, At, Coord;
    var m := q + 1;
    forall j: nat | j < |ids| ensures ClearedAt(ids0, ids, d, axis, n, 0, m, j) {
      CoordsAt(d, axis, j);
      assert ClearedAt(ids0, ids, d, axis, n, Length(d, Across(axis)), q, j);
    }
  }

  lemma ClearStart(ids: seq<nat>, d: Dims, axis: nat, n: nat)
    requires |ids| == Size(d) && axis < 3
    ensures ClearedTo(ids, ids, d, axis, n, 0, 0)
  {
    hide Size, Coord;
    forall j: nat | j < |ids| ensures ClearedAt(ids, ids, d, axis, n, 0, 0, j) { CoordsAt(d, axis, j); }
  }

  /** Slice n is cleared, and nothing else. */
  ghost predicate SliceCleared(ids0: seq<nat>, ids: seq<nat>, d: Dims, axis: nat, n: nat) {
    && |ids| == |ids0| == Size(d) && axis < 3
    && forall j: nat {:trigger SliceAt(ids0, ids, d, axis, n, j)} | j < |ids| :: SliceAt(ids0, ids, d, axis, n, j)
  }

  ghost predicate SliceAt(ids0: seq<nat>, ids: seq<nat>, d: Dims, axis: nat, n: nat, j: nat) {
    j < |ids| == |ids0| && d.x > 0 && d.y > 0 && ids[j] == if Coord(d, axis, j) == n then 0 else ids0[j]
  }

  lemma ClearEnd(ids0: seq<nat>, ids: seq<nat>, d: Dims, axis: nat, n: nat)
    requires ClearedTo(ids0, ids, d, axis, n, 0, Length(d, Along(axis)))
    ensures SliceCleared(ids0, ids, d, axis, n)
  {
    hide Size, Coord, At;
    forall j: nat | j < |ids| ensures SliceAt(ids0, ids, d, axis, n, j) {
      CoordsAt(d, axis, j);
      assert ClearedAt(ids0, ids, d, axis, n, 0, Length(d, Along(axis)), j);
    }
  }

  /** Clears slice n of the axis. */
  method FillSlice(ids: seq<nat>, d: Dims, axis: nat, n: nat) returns (r: seq<nat>)
    requires |ids| == Size(d) && axis < 3 && n < Length(d, axis)
    ensures |r| == |ids| && SliceCleared(ids, r, d, axis, n)
  {
    hide ClearedTo, Size, At, SliceCleared;
    ClearStart(ids, d, axis, n);
    r := ids;
    for q := 0 to Length(d, Along(axis))
      invariant ClearedTo(ids, r, d, axis, n, 0, q)
    {
      for p := 0 to Length(d, Across(axis))
        invariant ClearedTo(ids, r, d, axis, n, p, q)
      {
        ClearNext(ids, r, d, axis, n, p, q);
        r := r[At(d, axis, n, p, q) := 0];
      }
      ClearRow(ids, r, d, axis, n, q);
    }
    ClearEnd(ids, r, d, axis, n);
    ClearedLength(ids, r, d, axis, n);
  }

  lemma ClearedLength(ids: seq<nat>, r: seq<nat>, d: Dims, axis: nat, n: nat)
    requires SliceCleared(ids, r, d, axis, n)
    ensures |r| == |ids|
  {
  }

  // ---------- the border ----------

  /** Whether the volume ends at the front and at the back of each axis, or goes on in the next chunk. */
  datatype Ends = Ends(front: bool, back: bool)

  /** Voxel j lies on a face of the axis at which the volume ends. */
  ghost predicate AtEnd(d: Dims, axis: nat, e: Ends, j: nat)
    requires d.x > 0 && d.y > 0
  {
    (e.front && Coord(d, axis, j) == 0) || (e.back && Coord(d, axis, j) + 1 == Length(d, axis))
  }

  ghost predicate AxisCleared(ids0: seq<nat>, ids: seq<nat>, d: Dims, axis: nat, e: Ends) {
    && |ids| == |ids0| == Size(d)
    && forall j: nat {:trigger EndAt(ids0, ids, d, axis, e, j)} | j < |ids| :: EndAt(ids0, ids, d, axis, e, j)
  }

  ghost predicate EndAt(ids0: seq<nat>, ids: seq<nat>, d: Dims, axis: nat, e: Ends, j: nat) {
    j < |ids| == |ids0| && d.x > 0 && d.y > 0 && ids[j] == if AtEnd(d, axis, e, j) then 0 else ids0[j]
  }

  /** Region l has a voxel next to a face of the axis at which the volume goes on. In a volume two voxels wide the slice
      next to the back is the first one, which may have been cleared. */
  ghost predicate AtFace(ids: seq<nat>, d: Dims, axis: nat, e: Ends, l: nat) {
    || (!e.front && OnSlice(ids, d, axis, 1, l))
    || (!e.back && !(e.front && Length(d, axis) == 2) && Length(d, axis) >= 2 && OnSlice(ids, d, axis, Length(d, axis) - 2, l))
  }

  /** A region that has a voxel in a slice not cleared has it still, and no other region has. */
  lemma StillOnSlice(ids0: seq<nat>, ids: seq<nat>, d: Dims, axis: nat, n: nat, m: nat, l: nat)
    requires SliceCleared(ids0, ids, d, axis, n) && l > 0
    ensures OnSlice(ids, d, axis, m, l) <==> m != n && OnSlice(ids0, d, axis, m, l)
  {
    hide Size, Coord;
    if OnSlice(ids, d, axis, m, l) {
      var j: nat :| InSlice(d, axis, m, j) && j < |ids| && ids[j] == l;
      assert SliceAt(ids0, ids, d, axis, n, j);
    }
    if m != n && OnSlice(ids0, d, axis, m, l) {
      var j: nat :| InSlice(d, axis, m, j) && j < |ids0| && ids0[j] == l;
      assert SliceAt(ids0, ids, d, axis, n, j);
    }
  }

  lemma StillThere(ids0: seq<nat>, ids: seq<nat>, d: Dims, axis: nat, n: nat, m: nat)
    requires SliceCleared(ids0, ids, d, axis, n)
    ensures forall l: nat {:trigger OnSlice(ids, d, axis, m, l)} | l > 0 :: OnSlice(ids, d, axis, m, l) <==> m != n && OnSlice(ids0, d, axis, m, l)
  {
    forall l: nat {:trigger OnSlice(ids, d, axis, m, l)} | l > 0
      ensures OnSlice(ids, d, axis, m, l) <==> m != n && OnSlice(ids0, d, axis, m, l)
    {
      StillOnSlice(ids0, ids, d, axis, n, m, l);
    }
  }

  lemma ClearedBelow(ids0: seq<nat>, ids: seq<nat>, d: Dims, axis: nat, n: nat, bound: nat)
    requires SliceCleared(ids0, ids, d, axis, n) && bound > 0 && forall l | l in ids0 :: l < bound
    ensures forall l | l in ids :: l < bound
  {
    hide Size, Coord;
    forall l | l in ids ensures l < bound {
      var j: nat :| j < |ids| && ids[j] == l;
      assert SliceAt(ids0, ids, d, axis, n, j) && ids0[j] in ids0;
    }
  }

  lemma AxisDone(ids: seq<nat>, mid: seq<nat>, r: seq<nat>, d: Dims, axis: nat, e: Ends)
    requires |ids| == Size(d) && axis < 3 && d.x >= 1 && d.y >= 1 && d.z >= 1
    requires if e.front then SliceCleared(ids, mid, d, axis, 0) else mid == ids
    requires if e.back then SliceCleared(mid, r, d, axis, Length(d, axis) - 1) else r == mid
    ensures AxisCleared(ids, r, d, axis, e)
  {
    hide Size, Coord;
    forall j: nat | j < |r| ensures EndAt(ids, r, d, axis, e, j) {
      assert e.front ==> SliceAt(ids, mid, d, axis, 0, j);
      assert e.back ==> SliceAt(mid, r, d, axis, Length(d, axis) - 1, j);
    }
  }

  /** The two faces of one axis. */
  method ProcessAxis(ids: seq<nat>, d: Dims, axis: nat, e: Ends, flags: seq<bool>) returns (r: seq<nat>, f: seq<bool>)
    requires |ids| == Size(d) && (forall l | l in ids :: l < |flags|) && axis < 3 && d.x >= 2 && d.y >= 2 && d.z >= 2
    requires |flags| > 0
    ensures AxisCleared(ids, r, d, axis, e) && |f| == |flags| && forall l | l in r :: l < |f|
    ensures forall l: nat | 0 < l < |f| :: f[l] <==> flags[l] || AtFace(ids, d, axis, e, l)
  {
    hide Size, OnSlice, Coord, SliceCleared, AxisCleared;
    r, f := ids, flags;
    if !e.front {
      f := FlagSlice(r, d, axis, 1, f);
    } else {
      r := FillSlice(r, d, axis, 0);
      ClearedBelow(ids, r, d, axis, 0, |f|);
    }
    ghost var mid := r;
    if !e.back {
      f := FlagSlice(r, d, axis, Length(d, axis) - 2, f);
      if e.front { StillThere(ids, mid, d, axis, 0, Length(d, axis) - 2); }
    } else {
      r := FillSlice(r, d, axis, Length(d, axis) - 1);
      ClearedBelow(mid, r, d, axis, Length(d, axis) - 1, |f|);
    }
    AxisDone(ids, mid, r, d, axis, e);
  }

  // ---------- all faces ----------

  /** Slices of one axis keep off the faces of the others. */
  lemma OtherAxisSame(ids0: seq<nat>, ids: seq<nat>, d: Dims, axis: nat, e: Ends, other: nat, m: nat, l: nat)
    requires AxisCleared(ids0, ids, d, axis, e) && axis < 3 && other < 3 && axis != other
    ensures OnSlice(ids, d, other, m, l) <==> OnSlice(ids0, d, other, m, l)
  {
    hide Size, Coord;
    if OnSlice(ids, d, other, m, l) {
      var j: nat :| InSlice(d, other, m, j) && j < |ids| && ids[j] == l;
      assert EndAt(ids0, ids, d, axis, e, j);
    }
    if OnSlice(ids0, d, other, m, l) {
      var j: nat :| InSlice(d, other, m, j) && j < |ids0| && ids0[j] == l;
      assert EndAt(ids0, ids, d, axis, e, j);
    }
  }

  lemma OtherFacesSame(ids0: seq<nat>, ids: seq<nat>, d: Dims, axis: nat, e: Ends, other: nat, f: Ends)
    requires AxisCleared(ids0, ids, d, axis, e) && axis < 3 && other < 3 && axis != other
    ensures forall l: nat :: AtFace(ids, d, other, f, l) <==> AtFace(ids0, d, other, f, l)
  {
    hide OnSlice, AxisCleared, Size;
    forall l: nat ensures AtFace(ids, d, other, f, l) <==> AtFace(ids0, d, other, f, l) {
      OtherAxisSame(ids0, ids, d, axis, e, other, 1, l);
      if Length(d, other) >= 2 { OtherAxisSame(ids0, ids, d, axis, e, other, Length(d, other) - 2, l); }
    }
  }

  datatype Faces = Faces(x: Ends, y: Ends, z: Ends)

  /** Region l touches the border: it has a voxel next to a face at which the volume goes on. */
  ghost predicate Touches(ids: seq<nat>, d: Dims, e: Faces, l: nat) {
    AtFace(ids, d, 0, e.x, l) || AtFace(ids, d, 1, e.y, l) || AtFace(ids, d, 2, e.z, l)
  }

  /** Voxels at which the volume ends are cleared, and no others. */
  ghost predicate FacesCleared(ids0: seq<nat>, ids: seq<nat>, d: Dims, e: Faces) {
    && |ids| == |ids0| == Size(d)
    && forall j: nat {:trigger FaceAt(ids0, ids, d, e, j)} | j < |ids| :: FaceAt(ids0, ids, d, e, j)
  }

  ghost predicate FaceAt(ids0: seq<nat>, ids: seq<nat>, d: Dims, e: Faces, j: nat) {
    && j < |ids| == |ids0| && d.x > 0 && d.y > 0
    && ids[j] == if AtEnd(d, 0, e.x, j) || AtEnd(d, 1, e.y, j) || AtEnd(d, 2, e.z, j) then 0 else ids0[j]
  }

  lemma AllCleared(ids: seq<nat>, i1: seq<nat>, i2: seq<nat>, r: seq<nat>, d: Dims, e: Faces)
    requires AxisCleared(ids, i1, d, 0, e.x) && AxisCleared(i1, i2, d, 1, e.y) && AxisCleared(i2, r, d, 2, e.z)
    ensures FacesCleared(ids, r, d, e)
  {
    hide Size, Coord, AtEnd;
    forall j: nat | j < |r| ensures FaceAt(ids, r, d, e, j) {
      assert EndAt(ids, i1, d, 0, e.x, j) && EndAt(i1, i2, d, 1, e.y, j) && EndAt(i2, r, d, 2, e.z, j);
    }
  }

  /** Flags the regions, `n` with the background, that touch the border, and clears the faces at which the volume ends. */
  method ProcessBorders(ids: seq<nat>, d: Dims, e: Faces, n: nat) returns (r: seq<nat>, flags: seq<bool>)
    requires |ids| == Size(d) && (forall l | l in ids :: l < n) && d.x >= 2 && d.y >= 2 && d.z >= 2 && n > 0
    ensures FacesCleared(ids, r, d, e) && |flags| == n && forall l | l in r :: l < n
    ensures forall l: nat | 0 < l < n :: flags[l] <==> Touches(ids, d, e, l)
  {
    hide Size, AxisCleared, AtFace;
    flags := seq(n, _ => false);
    var i1, i2;
    i1, flags := ProcessAxis(ids, d, 0, e.x, flags);
    ClearedAxisLength(ids, i1, d, 0, e.x);
    i2, flags := ProcessAxis(i1, d, 1, e.y, flags);
    ClearedAxisLength(i1, i2, d, 1, e.y);
    OtherFacesSame(ids, i1, d, 0, e.x, 1, e.y);
    r, flags := ProcessAxis(i2, d, 2, e.z, flags);
    OtherFacesSame(i1, i2, d, 1, e.y, 2, e.z);
    OtherFacesSame(ids, i1, d, 0, e.x, 2, e.z);
    AllCleared(ids, i1, i2, r, d, e);
  }

  lemma ClearedAxisLength(ids0: seq<nat>, ids: seq<nat>, d: Dims, axis: nat, e: Ends)
    requires AxisCleared(ids0, ids, d, axis, e)
    ensures |ids| == |ids0|
  {
  }
}
