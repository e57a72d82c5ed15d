/** The watershed from affinities to the dendrogram: what each step hands to the next, the basic watershed and quickie as a
    whole, and when the assertion in quickie holds. */
module Watershed {
  import opened Counting
  import opened DisjointSets
  import opened FloodFill
  import opened Options
  import opened Paths
  import opened RegionAdjacency
  import opened RegionBorders
  import opened RegionMerge
  import opened VoxelEdges

  // ---------- from words to region numbers ----------

  function Ids(w: seq<Word>): (ids: seq<nat>)
    ensures |ids| == |w| && forall v | 0 <= v < |w| :: ids[v] == Clear(w[v])
  {
    seq(|w|, v requires 0 <= v < |w| => Clear(w[v]))
  }

  ghost function CountedVoxels(n: nat, counts: nat -> bool): (s: set<nat>) {
    set v | v in Below(n) && counts(v)
  }

  /** The labels are region numbers, and the sizes those the merging pass starts from. */
  lemma SizesHandedOver(w0: seq<Word>, g: set<Edge>, w: seq<Word>, next: nat, sizes: seq<nat>, counts: nat -> bool)
    requires Domains(w0, g, w, next) && |sizes| == next && Sized(sizes, w, counts, |w|)
    ensures SizesOf(sizes, Ids(w), CountedVoxels(|w|, counts), Identity(next))
    ensures forall l | l in Ids(w) :: l < next
  {
    LabelsBelow(w0, g, w, next);
    forall r: nat | r < next ensures sizes[r] == |VoxelsOf(Ids(w), CountedVoxels(|w|, counts), Identity(next), r)| {
      assert VoxelsOf(Ids(w), CountedVoxels(|w|, counts), Identity(next), r) == Having(w, counts, |w|, r);
    }
  }

  /** A counted voxel with label k gives region k a size. */
  lemma CountedAt(w: seq<Word>, sizes: seq<nat>, counts: nat -> bool, k: nat, v: nat)
    requires k < |sizes| && Sized(sizes, w, counts, |w|) && v < |w| && w[v] == Label(k) && counts(v)
    ensures sizes[k] > 0
  {
    assert v in Having(w, counts, |w|, k);
    assert sizes[k] == |Having(w, counts, |w|, k)|;
  }

  /** Where every voxel counts, every region has a size, so the counters of the compaction agree. */
  lemma EveryRegionCounted(w0: seq<Word>, g: set<Edge>, w: seq<Word>, next: nat, sizes: seq<nat>, counts: nat -> bool, k: nat)
    requires Domains(w0, g, w, next) && |sizes| == next && Sized(sizes, w, counts, |w|) && 1 <= k < next
    requires forall v: nat :: counts(v)
    ensures sizes[k] > 0
  {
    assert LabelUsed(w, k);
    var v: nat :| IsLabelled(w, v) && w[v].id == k;
    CountedAt(w, sizes, counts, k, v);
  }

  // ---------- when inner voxels alone count ----------

  /** A volume and its affinities, with the thresholds of `add_edges` and the affinity its searches start from. */
  datatype Input = Input(d: Dims, conn: seq<real>, start: real, low: real, hi: real, least: real) {
    ghost predicate Valid() {
      |conn| == 3 * Size(d)
    }

    ghost function Drawn(): (s: set<Drawn>)
      requires Valid()
    {
      AllDrawn(conn, d, start, low, hi)
    }

    ghost function Counted(): (s: set<nat>)
      requires Valid()
    {
      CountedTo(conn, d, start, low, least, Size(d))
    }

    ghost predicate SomeStrong()
      requires Valid()
    {
      exists j: nat, k: nat :: Strong(conn, d, hi, j, k)
    }
  }

  /** The words after the marks of `add_edges`. */
  ghost predicate Marked(i: Input, w0: seq<Word>) {
    && i.Valid() && |w0| == Size(i.d) && WellMarked(w0, Nhood(i.d))
    && MarkedBy(w0, Nhood(i.d), i.Drawn(), i.Counted())
  }

  function InnerVoxels(d: Dims): (f: nat -> bool) {
    (j: nat) => InnerAt(d, j)
  }

  /** Their regions, with sizes. */
  ghost predicate Regions(i: Input, w0: seq<Word>, w: seq<Word>, next: nat, sizes: seq<nat>, counts: nat -> bool) {
    Marked(i, w0) && Domains(w0, Graph(w0, Nhood(i.d)), w, next) && |sizes| == next && Sized(sizes, w, counts, |w|)
  }

  /** A voxel with a word is counted, and then inner, or an edge was drawn to another one from it or back. */
  ghost predicate Linked(i: Input, w0: seq<Word>, v: nat, u: nat, p: Drawn)
    requires i.Valid()
  {
    && u < |w0| && (v, u) in Graph(w0, Nhood(i.d)) && p in i.Drawn() && p.1 < 6
    && ((p.0 == v && v + Nhood(i.d)[p.1] == u) || (p.0 == u && u + Nhood(i.d)[p.1] == v))
  }

  lemma WhyMarked(i: Input, w0: seq<Word>, v: nat) returns (u: nat, p: Drawn)
    requires Marked(i, w0) && v < |w0| && !Empty(w0[v])
    ensures i.Valid() && (InnerAt(i.d, v) || Linked(i, w0, v, u, p))
  {
    hide Size, AllDrawn, CountedTo, InnerAt, WellMarked, Graph, Steep, Nhood;
    u, p := 0, (0, 0);
    assert WordBy(w0, Nhood(i.d), i.Drawn(), i.Counted(), v);
    if w0[v].counted {
      SteepToIs(i.conn, i.d, i.start, i.low, i.least, Size(i.d), v, 0);
    } else {
      var z: nat :| z in w0[v].dirs;
      assert MarkFrom(Nhood(i.d), i.Drawn(), v, z);
      GraphEdge(w0, Nhood(i.d), v, z);
      u := v + Nhood(i.d)[z];
      if (v, z) in i.Drawn() {
        p := (v, z);
      } else {
        p := (u, Opposite(z));
        OppositeBack(i.d, v, z);
      }
    }
  }

  lemma OppositeBack(d: Dims, v: nat, z: nat)
    requires z < 6 && v + Nhood(d)[z] >= 0
    ensures Opposite(z) < 6 && v + Nhood(d)[z] + Nhood(d)[Opposite(z)] == v
  {
  }

  /** In a volume with inner voxels every region has one. */
  lemma RegionsHaveInner(i: Input, w0: seq<Word>, w: seq<Word>, next: nat, sizes: seq<nat>, k: nat)
    requires Regions(i, w0, w, next, sizes, InnerVoxels(i.d)) && Thick(i.d) && 1 <= k < next
    ensures k < |sizes| && sizes[k] > 0
  {
    hide Size, AllDrawn, InnerAt, WellMarked, MarkedBy, Graph, Nhood, Sized;
    assert LabelUsed(w, k);
    var v: nat :| IsLabelled(w, v) && w[v].id == k;
    assert DomainWord(w0, w, next, v);
    var u, p := WhyMarked(i, w0, v);
    if InnerAt(i.d, v) {
      CountedAt(w, sizes, InnerVoxels(i.d), k, v);
    } else {
      DrawnAtInner(i.conn, i.d, i.start, i.low, i.hi, p.0, p.1);
      NeighbourSame(w0, Nhood(i.d), w, next, v, u);
      CountedAt(w, sizes, InnerVoxels(i.d), k, u);
    }
  }

  lemma NeighbourSame(w0: seq<Word>, nhood: seq<int>, w: seq<Word>, next: nat, v: nat, u: nat)
    requires WellMarked(w0, nhood) && Domains(w0, Graph(w0, nhood), w, next) && (v, u) in Graph(w0, nhood)
    ensures v < |w| && u < |w| && w[u] == w[v]
  {
    var g := Graph(w0, nhood);
    GraphSymmetric(w0, nhood);
    hide Graph, WellMarked;
    assert (u, v) in g by { assert (u, v) in Both(g); }
    ReachEdge(g, v, u);
    assert (v, u).0 < |w0| && (u, v).0 < |w0| && !Empty(w0[(v, u).0]) && !Empty(w0[(u, v).0]);
    assert SameDomain(w0, g, w, v, u);
  }

  /** In one without, nothing is counted. */
  lemma NothingCounted(i: Input, w0: seq<Word>, w: seq<Word>, next: nat, sizes: seq<nat>, k: nat)
    requires Regions(i, w0, w, next, sizes, InnerVoxels(i.d)) && !Thick(i.d) && k < next
    ensures k < |sizes| && sizes[k] == 0
  {
    hide Size, InnerAt, Marked, Domains;
    forall v | v in Having(w, InnerVoxels(i.d), |w|, k) ensures false {
      ThinHasNoInner(i.d, v);
    }
    assert Having(w, InnerVoxels(i.d), |w|, k) == {};
  }

  /** ... and there is a region if and only if there is a strong edge. */
  lemma ThinRegions(i: Input, w0: seq<Word>, w: seq<Word>, next: nat, sizes: seq<nat>)
    requires Regions(i, w0, w, next, sizes, InnerVoxels(i.d)) && !Thick(i.d)
    ensures i.Valid() && (next > 1 <==> i.SomeStrong())
  {
    hide Size, AllDrawn, InnerAt, WellMarked, MarkedBy, Graph, Nhood, Sized, Strong;
    if next > 1 {
      assert LabelUsed(w, 1);
      var v: nat :| IsLabelled(w, v) && w[v].id == 1;
      assert DomainWord(w0, w, next, v);
      var u, p := WhyMarked(i, w0, v);
      ThinHasNoInner(i.d, v);
      AllDrawnIs(i.conn, i.d, i.start, i.low, i.hi, p.0, p.1);
      assert p == (p.0, p.1);
      ThinHasNoInner(i.d, p.0);
    }
    if i.SomeStrong() {
      var j: nat, k: nat :| Strong(i.conn, i.d, i.hi, j, k);
      StrongIsMarked(i, w0, j, k);
      assert DomainWord(w0, w, next, j);
    }
  }

  lemma StrongIsMarked(i: Input, w0: seq<Word>, j: nat, k: nat)
    requires Marked(i, w0) && i.Valid() && Strong(i.conn, i.d, i.hi, j, k)
    ensures j < |w0| && !Empty(w0[j])
  {
    hide Size, AllDrawn, CountedTo, WellMarked, Affinity, XOf, YOf, ZOf;
    AllDrawnIs(i.conn, i.d, i.start, i.low, i.hi, j, k);
    assert WordBy(w0, Nhood(i.d), i.Drawn(), i.Counted(), j);
    assert MarkFrom(Nhood(i.d), i.Drawn(), j, k);
  }

  /** A volume two voxels wide, with affinities that are all strong: the assertion fails there. */
  lemma StrongButThin()
    ensures var i := Input(Dims(2, 3, 3), seq(54, _ => 1.0), 0.0, 0.5, 1.0, 0.5); i.Valid() && !Thick(i.d) && i.SomeStrong()
  {
    var i := Input(Dims(2, 3, 3), seq(54, _ => 1.0), 0.0, 0.5, 1.0, 0.5);
    assert Size(i.d) == 18 && Index(i.d, 1, 1, 1) == 9;
    StrongAt(i.conn, i.d, 1.0, 1, 1, 1, 0);
    assert Strong(i.conn, i.d, 1.0, 9, 0);
  }

  // ---------- from affinities to the dendrogram ----------

  /** What the basic watershed and quickie do differently after the marks: where region edges are looked for, at inner
      voxels alone or everywhere, and from which affinity on; the affinity down to which, and the size up to which,
      regions merge; the faces at which the volume ends; and where the dendrogram stops. */
  datatype Settings = Settings(inner: bool, graphLeast: real, mergeLeast: real, limit: nat, faces: Faces, stop: Option<real>)

  /** What the steps leave behind. */
  datatype Stages = Stages(w0: seq<Word>, w: seq<Word>, next: nat, sizes: seq<nat>, graph: seq<Weighted>, border: seq<bool>, before: seq<nat>,
    c: Classes, merged: seq<nat>, mergedBorder: seq<bool>, done: nat, joins: seq<nat>, remaps: seq<nat>,
    picked: seq<nat>)

  ghost function CountedIn(i: Input, counts: nat -> bool): (s: set<nat>) {
    CountedVoxels(Size(i.d), counts)
  }

  function SearchOf(i: Input, o: Settings, w: seq<Word>): (s: Search) {
    Search(i.d, i.conn, Ids(w), o.graphLeast, o.inner)
  }

  /** Steps one to four: regions, their graph, and which of them touch the border. */
  ghost predicate Prepared(i: Input, o: Settings, counts: nat -> bool, s: Stages) {
    && Regions(i, s.w0, s.w, s.next, s.sizes, counts)
    && SearchOf(i, o, s.w).Valid() && GraphOfRegions(SearchOf(i, o, s.w), s.graph)
    && FacesCleared(Ids(s.w), s.before, i.d, o.faces) && |s.border| == s.next
    && forall l: nat | 0 < l < s.next :: s.border[l] <==> Touches(Ids(s.w), i.d, o.faces, l)
  }

  /** Steps five and six: regions merged and renumbered, and their dendrogram. */
  ghost predicate Segmented(i: Input, o: Settings, counts: nat -> bool, s: Stages, ids: seq<nat>, sizes: seq<nat>, dendr: seq<Weighted>) {
    && Merging(s.c, s.merged, s.mergedBorder, s.graph, s.before, CountedIn(i, counts), s.border, o.limit, o.mergeLeast, s.done, s.joins)
    && s.done <= |s.graph| && (s.done == 0 || s.graph[s.done - 1].weight < o.mergeLeast)
    && Thresholded(s.c, s.merged, s.mergedBorder, s.remaps, sizes, s.before, ids, CountedIn(i, counts), o.limit)
    && MaximumSpanningForest(dendr, s.graph, s.remaps, o.stop) && Kruskal(dendr, s.picked, s.graph, s.remaps, o.stop)
  }

  /** Counted voxels are off the faces that are cleared. */
  ghost predicate CountsOff(i: Input, o: Settings, counts: nat -> bool) {
    forall j: nat | counts(j) && j < Size(i.d) && i.d.x > 0 && i.d.y > 0 ::
      !AtEnd(i.d, 0, o.faces.x, j) && !AtEnd(i.d, 1, o.faces.y, j) && !AtEnd(i.d, 2, o.faces.z, j)
  }

  lemma SizesAfterBorders(i: Input, o: Settings, counts: nat -> bool, ids0: seq<nat>, ids: seq<nat>, sizes: seq<nat>)
    requires SizesOf(sizes, ids0, CountedIn(i, counts), Identity(|sizes|))
    requires FacesCleared(ids0, ids, i.d, o.faces) && CountsOff(i, o, counts)
    ensures SizesOf(sizes, ids, CountedIn(i, counts), Identity(|sizes|))
  {
    var counted, own := CountedIn(i, counts), Identity(|sizes|);
    hide Size, AtEnd;
    forall r: nat | r < |sizes| ensures sizes[r] == |VoxelsOf(ids, counted, own, r)| {
      forall v ensures v in VoxelsOf(ids, counted, own, r) <==> v in VoxelsOf(ids0, counted, own, r) {
        if v < |ids0| && v in counted { assert FaceAt(ids0, ids, i.d, o.faces, v); }
      }
      assert VoxelsOf(ids, counted, own, r) == VoxelsOf(ids0, counted, own, r);
      assert sizes[r] == |VoxelsOf(ids0, counted, own, r)|;
    }
  }

  /** Steps one to four. */
  method Prepare(i: Input, o: Settings, counts: nat -> bool) returns (seg: Segmentation, ghost s: Stages)
    requires i.Valid() && i.d.x >= 2 && i.d.y >= 2 && i.d.z >= 2 && CountsOff(i, o, counts)
    ensures fresh(seg) && seg.Ready() && Prepared(i, o, counts, s)
    ensures seg.sizes == s.sizes && seg.graph == s.graph && seg.onBorder == s.border && seg.ids == s.before && seg.counted == CountedIn(i, counts)
  {
    hide Size, AllDrawn, CountedTo, MarkedBy, WellMarked, Graph, Domains, Sized, GraphOfRegions, FacesCleared, Touches, SizesOf, Rising, RegionGraph,
      CountsOff;
    var result := new Word[Size(i.d)](_ => Marks({}, false, false));
    AddEdges(i.conn, i.d, i.start, i.low, i.hi, i.least, result);
    ghost var w0 := result[..];
    ghost var looked;
    var sizes, next;
    sizes, next, looked := InitialDomains(result, Nhood(i.d), counts);
    ghost var w := result[..];
    var ids := Ids(result[..]);
    SizesHandedOver(w0, Graph(w0, Nhood(i.d)), w, next, sizes, counts);
    var search := Search(i.d, i.conn, ids, o.graphLeast, o.inner);
    var graph := CreateGraph(search);
    GraphJoinsRegions(search, graph, next);
    GraphRises(search, graph);
    DomainsSome(w0, Graph(w0, Nhood(i.d)), w, next);
    var before, border := ProcessBorders(ids, i.d, o.faces, next);
    SizesAfterBorders(i, o, counts, ids, before, sizes);
    seg := new Segmentation(sizes, graph, border, before, CountedIn(i, counts));
    s := Stages(w0, w, next, sizes, graph, border, before, Classes([], []), [], [], 0, [], [], []);
  }

  lemma GraphRises(s: Search, graph: seq<Weighted>)
    requires s.Valid() && GraphOfRegions(s, graph)
    ensures Rising(graph)
  {
    OrderedRises(graph);
  }

  lemma DomainsSome(w0: seq<Word>, g: set<Edge>, w: seq<Word>, next: nat)
    requires Domains(w0, g, w, next)
    ensures next > 0 && |w| == |w0|
  {
  }

  /** All steps; `agree` is whether the two ways of counting the survivors agree. */
  method Segment(i: Input, o: Settings, counts: nat -> bool)
      returns (ids: seq<nat>, sizes: seq<nat>, dendr: seq<Weighted>, agree: bool, ghost s: Stages)
    requires i.Valid() && i.d.x >= 2 && i.d.y >= 2 && i.d.z >= 2 && CountsOff(i, o, counts)
    ensures Prepared(i, o, counts, s) && Segmented(i, o, counts, s, ids, sizes, dendr)
    ensures (forall k | 1 <= k < |s.sizes| :: s.sizes[k] > 0) ==> agree
    ensures |s.sizes| > 1 && (forall k | 0 <= k < |s.sizes| :: s.sizes[k] == 0) ==> !agree
  {
    hide Prepared, Merging, Thresholded, MaximumSpanningForest, Kruskal, SizesOf, RegionGraph, Rising, CountsOff, EmptyRoots;
    var seg;
    seg, s := Prepare(i, o, counts);
    PreparedStays(i, o, counts, s);
    ghost var c, merged, border, done, joins, picked;
    agree, c, merged, border, done, joins := seg.ApplySizeThreshold(o.limit, o.mergeLeast);
    s := s.(c := c, merged := merged, mergedBorder := border, done := done, joins := joins, remaps := seg.remaps);
    AfterThreshold(c, merged, border, s.remaps, seg.sizes, s.before, seg.ids, seg.counted, o.limit);
    MergedGraph(c, merged, border, s.graph, s.before, seg.counted, s.border, o.limit, o.mergeLeast, done, joins);
    picked := seg.GenerateDendr(o.stop);
    s := s.(picked := picked);
    ids, sizes, dendr := seg.ids, seg.sizes, seg.dendr;
  }

  lemma PreparedStays(i: Input, o: Settings, counts: nat -> bool, s: Stages)
    requires Prepared(i, o, counts, s)
    ensures forall c, merged, border, done, joins, remaps, picked :: Prepared(i, o, counts,
      s.(c := c, merged := merged, mergedBorder := border, done := done, joins := joins, remaps := remaps, picked := picked))
  {
    hide Regions, GraphOfRegions, FacesCleared, Touches;
  }

  lemma AfterThreshold(c: Classes, merged: seq<nat>, border: seq<bool>, remaps: seq<nat>, sizes: seq<nat>, before: seq<nat>, ids: seq<nat>,
        counted: set<nat>, limit: nat)
    requires Thresholded(c, merged, border, remaps, sizes, before, ids, counted, limit)
    ensures |sizes| > 0 && |remaps| == |merged| && forall j | 0 <= j < |remaps| :: remaps[j] < |sizes|
  {
  }

  lemma MergedGraph(c: Classes, sizes: seq<nat>, border: seq<bool>, graph: seq<Weighted>, ids: seq<nat>, counted: set<nat>, initial: seq<bool>,
        limit: nat, least: real, i: nat, joins: seq<nat>)
    requires Merging(c, sizes, border, graph, ids, counted, initial, limit, least, i, joins)
    ensures RegionGraph(graph, |sizes|)
  {
  }

  /** Two voxels with labels have the same one in the end if and only if joins connect their regions. */
  lemma SameSegment(i: Input, o: Settings, counts: nat -> bool, s: Stages, ids: seq<nat>, sizes: seq<nat>, dendr: seq<Weighted>, u: nat, v: nat)
    requires Prepared(i, o, counts, s) && Segmented(i, o, counts, s, ids, sizes, dendr)
    requires u < |ids| && v < |ids| && ids[u] != 0 && ids[v] != 0
    ensures |ids| == |s.before| && Within(s.joins, 0, |s.graph|)
    ensures ids[u] == ids[v] <==> Connected(EdgesOf(EdgesAt(s.graph, s.joins)), s.before[u], s.before[v])
  {
    hide *;
    SegmentedIds(i, o, counts, s, ids, sizes, dendr);
    JoinedConnect(s.c, s.graph, s.joins);
    var rep, a, b := s.c.rep, s.before[u], s.before[v];
    LabelsRenumbered(rep, s.remaps, s.before, ids, u, v);
    assert rep[a] == rep[b] <==> Connected(EdgesOf(EdgesAt(s.graph, s.joins)), a, b) by {
      RepresentsAt(rep, EdgesOf(EdgesAt(s.graph, s.joins)), a, b);
    }
  }

  lemma RepresentsAt(rep: seq<nat>, es: set<Edge>, a: nat, b: nat)
    requires Represents(rep, es) && a < |rep| && b < |rep|
    ensures rep[a] == rep[b] <==> Connected(es, a, b)
  {
  }

  /** Two voxels with labels have the same one just if their regions are in one class. */
  lemma LabelsRenumbered(rep: seq<nat>, remaps: seq<nat>, before: seq<nat>, ids: seq<nat>, u: nat, v: nat)
    requires ids == Relabel(before, rep, remaps) && |remaps| == |rep| && forall i, j :: RenumberedUp(remaps, i, j)
    requires u < |ids| && v < |ids| && ids[u] != 0 && ids[v] != 0
    ensures |ids| == |before| && before[u] < |rep| && before[v] < |rep| && (ids[u] == ids[v] <==> rep[before[u]] == rep[before[v]])
  {
    var a, b := rep[before[u]], rep[before[v]];
    assert RenumberedUp(remaps, a, b) && RenumberedUp(remaps, b, a);
  }

  lemma SegmentedIds(i: Input, o: Settings, counts: nat -> bool, s: Stages, ids: seq<nat>, sizes: seq<nat>, dendr: seq<Weighted>)
    requires Segmented(i, o, counts, s, ids, sizes, dendr)
    ensures ids == Relabel(s.before, s.c.rep, s.remaps) && |ids| == |s.before| && |s.remaps| == |s.c.rep| && forall i, j :: RenumberedUp(s.remaps, i, j)
    ensures Within(s.joins, 0, |s.graph|) && RegionGraph(s.graph, |s.c.rep|) && s.c == ClassesAt(s.graph, s.joins, |s.c.rep|)
  {
    hide SizesOf, BorderOf, EdgeSettled, MaximumSpanningForest, Kruskal, Kept, Labelled, JoinedIfDue, ClassesAt, Falling, WellFormed;
  }

  function Min(a: real, b: real): (m: real)
    ensures m <= a && m <= b && (m == a || m == b)
  {
    if b < a then b else a
  }

  function NoEnds(): (f: Faces) {
    Faces(Ends(false, false), Ends(false, false), Ends(false, false))
  }

  function EveryVoxel(): (f: nat -> bool) {
    (j: nat) => true
  }

  /** Voxels count from the lower of the two thresholds on. */
  function BasicInput(d: Dims, conn: seq<real>, low: real, hi: real, min: real): (i: Input)
    ensures i.low == low && i.hi == hi && i.least <= low && i.least <= min && (i.least == low || i.least == min)
  {
    Input(d, conn, -1.0, low, hi, Min(low, min))
  }

  /** Region edges are looked for everywhere, from the lower of the two thresholds on, and down to it regions merge; the
      dendrogram stops at `low`. */
  function BasicSettings(low: real, min: real, limit: nat): (o: Settings)
    ensures !o.inner && o.graphLeast == o.mergeLeast && o.limit == limit && o.stop == Some(low)
    ensures o.mergeLeast <= low && o.mergeLeast <= min && (o.mergeLeast == low || o.mergeLeast == min)
  {
    Settings(false, Min(low, min), Min(low, min), limit, NoEnds(), Some(low))
  }

  /** The basic watershed: every voxel counts, so both ways of counting the survivors agree. */
  method Basic(d: Dims, conn: seq<real>, low: real, hi: real, min: real, limit: nat)
      returns (ids: seq<nat>, sizes: seq<nat>, dendr: seq<Weighted>, agree: bool, ghost s: Stages)
    requires |conn| == 3 * Size(d) && d.x >= 2 && d.y >= 2 && d.z >= 2
    ensures Prepared(BasicInput(d, conn, low, hi, min), BasicSettings(low, min, limit), EveryVoxel(), s)
    ensures Segmented(BasicInput(d, conn, low, hi, min), BasicSettings(low, min, limit), EveryVoxel(), s, ids, sizes, dendr)
    ensures agree
  {
    hide Size, Prepared, Segmented, Regions;
    var i, o := BasicInput(d, conn, low, hi, min), BasicSettings(low, min, limit);
    ids, sizes, dendr, agree, s := Segment(i, o, EveryVoxel());
    PreparedRegions(i, o, EveryVoxel(), s);
    forall k | 1 <= k < |s.sizes| ensures s.sizes[k] > 0 { AllCounted(i, s.w0, s.w, s.next, s.sizes, k); }
  }

  lemma PreparedRegions(i: Input, o: Settings, counts: nat -> bool, s: Stages)
    requires Prepared(i, o, counts, s)
    ensures Regions(i, s.w0, s.w, s.next, s.sizes, counts) && |s.sizes| == s.next >= 1
  {
  }

  lemma AllCounted(i: Input, w0: seq<Word>, w: seq<Word>, next: nat, sizes: seq<nat>, k: nat)
    requires Regions(i, w0, w, next, sizes, EveryVoxel()) && 1 <= k < next
    ensures k < |sizes| && sizes[k] > 0
  {
    hide Marked, Sized;
    EveryRegionCounted(w0, Graph(w0, Nhood(i.d)), w, next, sizes, EveryVoxel(), k);
  }

  function QuickieInput(d: Dims, conn: seq<real>, start: real, low: real, hi: real): (i: Input) {
    Input(d, conn, start, low, hi, low)
  }

  /** Region edges are looked for at inner voxels, from the lower of the two thresholds on; regions merge down to `mst`, and
      the dendrogram does not stop. */
  function QuickieSettings(low: real, mst: real, limit: nat, faces: Faces): (o: Settings)
    ensures o.inner && o.mergeLeast == mst && o.limit == limit && o.stop == None
    ensures o.graphLeast <= low && o.graphLeast <= mst && (o.graphLeast == low || o.graphLeast == mst)
  {
    Settings(true, Min(low, mst), mst, limit, faces, None)
  }

  /** Quickie: only inner voxels count, so its assertion holds if and only if there are inner voxels or no strong edges. */
  method Quickie(d: Dims, conn: seq<real>, start: real, low: real, hi: real, mst: real, limit: nat, faces: Faces)
      returns (ids: seq<nat>, sizes: seq<nat>, dendr: seq<Weighted>, agree: bool, ghost s: Stages)
    requires |conn| == 3 * Size(d) && d.x >= 2 && d.y >= 2 && d.z >= 2
    ensures Prepared(QuickieInput(d, conn, start, low, hi), QuickieSettings(low, mst, limit, faces), InnerVoxels(d), s)
    ensures Segmented(QuickieInput(d, conn, start, low, hi), QuickieSettings(low, mst, limit, faces), InnerVoxels(d), s, ids, sizes, dendr)
    ensures agree <==> Thick(d) || !QuickieInput(d, conn, start, low, hi).SomeStrong()
  {
    hide Size, Prepared, Segmented, Regions, InnerVoxels;
    var i, o := QuickieInput(d, conn, start, low, hi), QuickieSettings(low, mst, limit, faces);
    InnerOff(i, o);
    ids, sizes, dendr, agree, s := Segment(i, o, InnerVoxels(d));
    PreparedRegions(i, o, InnerVoxels(d), s);
    if Thick(d) {
      forall k | 1 <= k < |s.sizes| ensures s.sizes[k] > 0 { RegionsHaveInner(i, s.w0, s.w, s.next, s.sizes, k); }
    } else {
      forall k | 0 <= k < |s.sizes| ensures s.sizes[k] == 0 { NothingCounted(i, s.w0, s.w, s.next, s.sizes, k); }
      ThinRegions(i, s.w0, s.w, s.next, s.sizes);
    }
  }

  /** On its way quickie overwrites the affinities at the faces of the volume. Nothing that follows depends on them. */
  lemma OverwrittenUnread(i: Input, over: seq<real>, o: Settings, counts: nat -> bool, s: Stages)
    requires Prepared(i, o, counts, s) && i.Valid() && o.inner && SameInside(i.conn, over, i.d)
    ensures Prepared(i.(conn := over), o, counts, s)
  {
    hide Size, AllDrawn, CountedTo, WellMarked, MarkedBy, Domains, Sized, GraphOfRegions, FacesCleared, Touches, Adjacent;
    FacesUnread(i.conn, over, i.d, i.start, i.low, i.hi, i.least);
    GraphUnread(SearchOf(i, o, s.w), over, s.graph);
  }

  /** Inner voxels are off all faces. */
  lemma InnerOff(i: Input, o: Settings)
    ensures CountsOff(i, o, InnerVoxels(i.d))
  {
    hide Size, XOf, YOf, ZOf;
  }
}
