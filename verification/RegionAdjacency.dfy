/** The region graph: one entry for every pair of regions that meet in the volume, with the greatest affinity between
    them, in rising order. */
module RegionAdjacency {
  import opened Counting
  import opened Paths
  import opened RegionMerge
  import opened VoxelEdges

  /** What is searched: a labelled volume with its affinities, those to look at being at least `least`, and, where
      `inner` says so, only those back from inner voxels. */
  datatype Search = Search(d: Dims, conn: seq<real>, ids: seq<nat>, least: real, inner: bool) {
    ghost predicate Valid() {
      |conn| == 3 * Size(d) && |ids| == Size(d)
    }
  }

  function Pair(a: nat, b: nat): (e: Edge) {
    if a < b then (a, b) else (b, a)
  }

  predicate Looked(s: Search, x: nat, y: nat, z: nat, k: nat) {
    if s.inner then Inner(s.d, x, y, z) else (k == 0 ==> x > 0) && (k == 1 ==> y > 0) && (k == 2 ==> z > 0)
  }

  ghost predicate LookedAt(s: Search, j: nat, k: nat) {
    j < Size(s.d) && k < 3 && s.d.x > 0 && s.d.y > 0 && Looked(s, XOf(s.d, j), YOf(s.d, j), ZOf(s.d, j), k)
  }

  /** Voxel p.0 and the one before it in direction p.1 are in two regions and close enough. */
  ghost predicate Adjacent(s: Search, p: Drawn)
    requires s.Valid()
  {
    && LookedAt(s, p.0, p.1) && 0 <= p.0 + Nhood(s.d)[p.1] < Size(s.d)
    && s.ids[p.0] != 0 && s.ids[p.0 + Nhood(s.d)[p.1]] != 0 && s.ids[p.0] != s.ids[p.0 + Nhood(s.d)[p.1]]
    && Affinity(s.conn, s.d, p.0, p.1) >= s.least
  }

  ghost function PairAt(s: Search, p: Drawn): (e: Edge)
    requires s.Valid() && Adjacent(s, p)
  {
    Pair(s.ids[p.0], s.ids[p.0 + Nhood(s.d)[p.1]])
  }

  ghost function AffinityAt(s: Search, p: Drawn): (a: real)
    requires s.Valid() && Adjacent(s, p)
  {
    Affinity(s.conn, s.d, p.0, p.1)
  }

  /** Where only inner voxels are looked at, affinities at the faces of the volume have no say. */
  lemma BetweenUnread(s: Search, over: seq<real>, p: Drawn)
    requires s.Valid() && s.inner && SameInside(s.conn, over, s.d)
    ensures s.(conn := over).Valid() && (Adjacent(s.(conn := over), p) <==> Adjacent(s, p))
    ensures Adjacent(s, p) ==> AffinityAt(s.(conn := over), p) == AffinityAt(s, p)
  {
    hide Size, XOf, YOf, ZOf, Affinity, Nhood;
    if LookedAt(s, p.0, p.1) { assert EligibleAt(s.d, p.0, p.1); }
  }

  // ---------- the greatest affinities ----------

  /** `u` has the pairs met at the places in `met`, each with the greatest affinity found there. */
  ghost predicate Greatest(s: Search, u: map<Edge, real>, met: set<Drawn>)
    requires s.Valid()
  {
    && (forall p {:trigger Covered(s, u, p)} | p in met :: Covered(s, u, p))
    && (forall e {:trigger Attained(s, u, met, e)} | e in u :: Attained(s, u, met, e))
  }

  ghost predicate Covered(s: Search, u: map<Edge, real>, p: Drawn)
    requires s.Valid()
  {
    Adjacent(s, p) && PairAt(s, p) in u && AffinityAt(s, p) <= u[PairAt(s, p)]
  }

  ghost predicate Attained(s: Search, u: map<Edge, real>, met: set<Drawn>, e: Edge)
    requires s.Valid()
  {
    e in u && exists p {:trigger p in met} :: p in met && Adjacent(s, p) && PairAt(s, p) == e && AffinityAt(s, p) == u[e]
  }

  function Record(u: map<Edge, real>, e: Edge, a: real): (r: map<Edge, real>) {
    if e !in u then u[e := a] else if u[e] < a then u[e := a] else u
  }

  lemma RecordGreatest(s: Search, u: map<Edge, real>, met: set<Drawn>, p: Drawn)
    requires s.Valid() && Greatest(s, u, met) && Adjacent(s, p)
    ensures Greatest(s, Record(u, PairAt(s, p), AffinityAt(s, p)), met + {p})
  {
    hide Adjacent, PairAt, AffinityAt;
    var r, more := Record(u, PairAt(s, p), AffinityAt(s, p)), met + {p};
    forall q | q in more ensures Covered(s, r, q) {
      if q in met { assert Covered(s, u, q); }
    }
    forall e | e in r ensures Attained(s, r, more, e) {
      if e in u && r[e] == u[e] {
        assert Attained(s, u, met, e);
        var q :| q in met && Adjacent(s, q) && PairAt(s, q) == e && AffinityAt(s, q) == u[e];
        assert q in more;
      } else {
        assert p in more;
      }
    }
  }

  // ---------- the search ----------

  /** The places where regions meet in directions before k, and in direction k at voxels before j. */
  ghost function Met(s: Search, k: nat, j: nat): (m: set<Drawn>)
    requires s.Valid()
  {
    set v, q | v in Below(Size(s.d)) && q in Below(3) && (q < k || (q == k && v < j)) && Adjacent(s, (v, q)) :: (v, q)
  }

  lemma MetNext(s: Search, k: nat, j: nat)
    requires s.Valid() && j < Size(s.d) && k < 3
    ensures Met(s, k, j + 1) == Met(s, k, j) + if Adjacent(s, (j, k)) then {(j, k)} else {}
  {
    hide Adjacent, Size;
  }

  lemma MetRound(s: Search, k: nat)
    requires s.Valid()
    ensures Met(s, k + 1, 0) == Met(s, k, Size(s.d))
  {
    hide Adjacent, Size;
  }

  lemma MetAll(s: Search, p: Drawn)
    requires s.Valid()
    ensures p in Met(s, 3, 0) <==> Adjacent(s, p)
  {
    assert p == (p.0, p.1);
    hide Size;
  }

  /** At the coordinates of j. */
  lemma LookedIs(s: Search, x: nat, y: nat, z: nat, k: nat)
    requires x < s.d.x && y < s.d.y && z < s.d.z && k < 3
    ensures var j := Index(s.d, x, y, z); j < Size(s.d) && (LookedAt(s, j, k) <==> Looked(s, x, y, z, k))
    ensures Looked(s, x, y, z, k) ==> 0 <= Index(s.d, x, y, z) + Nhood(s.d)[k] < Size(s.d)
  {
    hide Index, Size, XOf, YOf, ZOf;
    IndexInside(s.d, x, y, z);
    Coordinates(s.d, x, y, z);
    if Looked(s, x, y, z, k) { StepInside(s.d, x, y, z, k); }
  }

  /** What the search does at one voxel. */
  method MeetVoxel(s: Search, k: nat, x: nat, y: nat, z: nat, j: nat, uniques: map<Edge, real>) returns (r: map<Edge, real>)
    requires s.Valid() && k < 3 && x < s.d.x && y < s.d.y && z < s.d.z && j == Index(s.d, x, y, z)
    requires Greatest(s, uniques, Met(s, k, j))
    ensures Greatest(s, r, Met(s, k, j + 1))
  {
    hide Index, Size, Greatest, Met, Looked;
    LookedIs(s, x, y, z, k);
    MetNext(s, k, j);
    assert Met(s, k, j) + {} == Met(s, k, j);
    r := uniques;
    if Looked(s, x, y, z, k) && s.conn[k * Size(s.d) + j] >= s.least {
      var a, b := s.ids[j], s.ids[j + Nhood(s.d)[k]];
      if a != 0 && b != 0 && a != b {
        RecordGreatest(s, uniques, Met(s, k, j), (j, k));
        r := Record(uniques, Pair(a, b), s.conn[k * Size(s.d) + j]);
      }
    }
  }

  /** The search in direction k. */
  method MeetPass(s: Search, k: nat, uniques: map<Edge, real>) returns (r: map<Edge, real>)
    requires s.Valid() && k < 3 && Greatest(s, uniques, Met(s, k, 0))
    ensures Greatest(s, r, Met(s, k + 1, 0))
  {
    hide Index, Size, Greatest, Met;
    LastIndex(s.d);
    FirstIndex(s.d);
    var j := 0;
    r := uniques;
    for z := 0 to s.d.z
      invariant j == Index(s.d, 0, 0, z) && Greatest(s, r, Met(s, k, j))
    {
      for y := 0 to s.d.y
        invariant j == Index(s.d, 0, y, z) && Greatest(s, r, Met(s, k, j))
      {
        for x := 0 to s.d.x
          invariant j == Index(s.d, x, y, z) && Greatest(s, r, Met(s, k, j))
        {
          r := MeetVoxel(s, k, x, y, z, j, r);
          NextX(s.d, x, y, z);
          j := j + 1;
        }
        NextY(s.d, y, z);
      }
      NextZ(s.d, z);
    }
    MetRound(s, k);
  }

  // ---------- in rising order ----------

  /** By weight, and among equal weights by the regions. */
  predicate Less(e: Weighted, f: Weighted) {
    e.weight < f.weight || (e.weight == f.weight && (e.a < f.a || (e.a == f.a && e.b < f.b)))
  }

  ghost predicate Ordered(graph: seq<Weighted>) {
    forall i, j :: OrderedAt(graph, i, j)
  }

  ghost predicate OrderedAt(graph: seq<Weighted>, i: int, j: int) {
    0 <= i < j < |graph| ==> !Less(graph[j], graph[i])
  }

  lemma OrderedRises(graph: seq<Weighted>)
    requires Ordered(graph)
    ensures Rising(graph)
  {
    forall i, j ensures InOrder(graph, i, j) { assert OrderedAt(graph, i, j); }
  }

  /** Sorting, one entry at a time. */
  function InsertByWeight(graph: seq<Weighted>, e: Weighted): (r: seq<Weighted>)
    ensures |r| == |graph| + 1 && forall f :: f in r <==> f in graph || f == e
  {
    if graph == [] || !Less(graph[0], e) then [e] + graph
    else
      assert graph == [graph[0]] + graph[1..];
      [graph[0]] + InsertByWeight(graph[1..], e)
  }

  lemma {:induction false} InsertOrders(graph: seq<Weighted>, e: Weighted)
    requires Ordered(graph)
    ensures Ordered(InsertByWeight(graph, e))
  {
    var r := InsertByWeight(graph, e);
    if graph == [] || !Less(graph[0], e) {
      forall i, j ensures OrderedAt(r, i, j) {
        if 0 <= i < j < |r| { assert OrderedAt(graph, i - 1, j - 1) && OrderedAt(graph, 0, j - 1); }
      }
    } else {
      var rest := graph[1..];
      forall i, j ensures OrderedAt(rest, i, j) { assert OrderedAt(graph, i + 1, j + 1); }
      InsertOrders(rest, e);
      forall i, j ensures OrderedAt(r, i, j) {
        if 0 <= i < j < |r| {
          assert OrderedAt(InsertByWeight(rest, e), i - 1, j - 1);
          assert r[j] in InsertByWeight(rest, e);
          if r[j] in rest { var k :| 0 <= k < |rest| && rest[k] == r[j]; assert OrderedAt(graph, 0, k + 1); }
        }
      }
    }
  }

  /** Two entries are for different regions, in whatever order these are named. */
  ghost predicate OneEntry(graph: seq<Weighted>, i: int, j: int) {
    0 <= i < j < |graph| ==> !Join(graph[i], graph[j].a, graph[j].b)
  }

  /** The entry is for the regions `a` and `b`, in either order. */
  ghost predicate Join(e: Weighted, a: nat, b: nat) {
    (e.a == a && e.b == b) || (e.a == b && e.b == a)
  }

  ghost predicate AllOnce(graph: seq<Weighted>) {
    forall i, j :: OneEntry(graph, i, j)
  }

  lemma {:induction false} InsertOnce(graph: seq<Weighted>, e: Weighted)
    requires AllOnce(graph) && forall f | f in graph :: !Join(f, e.a, e.b)
    ensures AllOnce(InsertByWeight(graph, e))
  {
    var r := InsertByWeight(graph, e);
    if graph == [] || !Less(graph[0], e) {
      forall i, j ensures OneEntry(r, i, j) {
        assert OneEntry(graph, i - 1, j - 1);
        if i == 0 && 1 <= j < |r| { assert r[j] == graph[j - 1] && graph[j - 1] in graph; }
      }
    } else {
      var rest := graph[1..];
      forall i, j ensures OneEntry(rest, i, j) { assert OneEntry(graph, i + 1, j + 1); }
      forall f | f in rest ensures !Join(f, e.a, e.b) { assert f in graph; }
      InsertOnce(rest, e);
      var t := InsertByWeight(rest, e);
      forall i, j ensures OneEntry(r, i, j) {
        assert OneEntry(t, i - 1, j - 1);
        if i == 0 && 1 <= j < |r| {
          assert r[j] == t[j - 1] && t[j - 1] in t && graph[0] in graph;
          if r[j] in rest { var k :| 0 <= k < |rest| && rest[k] == r[j]; assert OneEntry(graph, 0, k + 1); }
        }
      }
    }
  }

  /** The entries of `graph` are those of `u` for the pairs in `done`. */
  ghost predicate EntriesOf(graph: seq<Weighted>, u: map<Edge, real>, done: set<Edge>) {
    && Ordered(graph) && AllOnce(graph) && done <= u.Keys && (forall p | p in done :: p.0 < p.1)
    && (forall e | e in graph :: (e.a, e.b) in done && e.weight == u[(e.a, e.b)])
    && (forall p | p in done :: Weighted(u[p], p.0, p.1) in graph)
  }

  lemma EntriesNext(graph: seq<Weighted>, u: map<Edge, real>, done: set<Edge>, p: Edge)
    requires EntriesOf(graph, u, done) && p in u && p !in done && p.0 < p.1
    ensures EntriesOf(InsertByWeight(graph, Weighted(u[p], p.0, p.1)), u, done + {p})
  {
    forall f | f in graph ensures !Join(f, p.0, p.1) { assert (f.a, f.b) in done; }
    InsertOrders(graph, Weighted(u[p], p.0, p.1));
    InsertOnce(graph, Weighted(u[p], p.0, p.1));
    hide Ordered, AllOnce, InsertByWeight;
  }

  method SortEntries(u: map<Edge, real>) returns (graph: seq<Weighted>)
    requires forall p | p in u :: p.0 < p.1
    ensures EntriesOf(graph, u, u.Keys)
  {
    graph := [];
    var rest := u.Keys;
    NoEntries(u);
    hide EntriesOf;
    while rest != {}
      invariant rest <= u.Keys && EntriesOf(graph, u, u.Keys - rest)
      decreases |rest|
    {
      var p: Edge :| p in rest;
      EntriesNext(graph, u, u.Keys - rest, p);
      graph := InsertByWeight(graph, Weighted(u[p], p.0, p.1));
      assert u.Keys - (rest - {p}) == u.Keys - rest + {p};
      rest := rest - {p};
    }
    assert u.Keys - {} == u.Keys;
  }

  lemma NoEntries(u: map<Edge, real>)
    ensures EntriesOf([], u, u.Keys - u.Keys)
  {
  }

  // ---------- the graph ----------

  /** One entry to every two regions that meet, the lower one first, with the greatest affinity between them, in rising
      order. */
  ghost predicate GraphOfRegions(s: Search, graph: seq<Weighted>)
    requires s.Valid()
  {
    && Ordered(graph) && AllOnce(graph) && (forall e | e in graph :: e.a < e.b)
    && (forall e {:trigger MeetAt(s, e)} | e in graph :: MeetAt(s, e))
    && (forall p {:trigger EntryFor(s, graph, p)} | Adjacent(s, p) :: EntryFor(s, graph, p))
  }

  /** The entry is for the two regions at place `p`. */
  ghost predicate JoinAt(s: Search, p: Drawn, e: Weighted)
    requires s.Valid() && Adjacent(s, p)
  {
    Join(e, s.ids[p.0], s.ids[p.0 + Nhood(s.d)[p.1]])
  }

  /** The regions of an entry meet, and with its weight. */
  ghost predicate MeetAt(s: Search, e: Weighted)
    requires s.Valid()
  {
    exists p: Drawn {:trigger Adjacent(s, p)} :: Adjacent(s, p) && JoinAt(s, p, e) && AffinityAt(s, p) == e.weight
  }

  /** Where two regions meet they have an entry that weighs no less. */
  ghost predicate EntryFor(s: Search, graph: seq<Weighted>, p: Drawn)
    requires s.Valid() && Adjacent(s, p)
  {
    exists e :: e in graph && JoinAt(s, p, e) && e.weight >= AffinityAt(s, p)
  }

  lemma PairIs(s: Search, p: Drawn, x: real)
    requires s.Valid() && Adjacent(s, p)
    ensures PairAt(s, p).0 < PairAt(s, p).1 && JoinAt(s, p, Weighted(x, PairAt(s, p).0, PairAt(s, p).1))
  {
    hide LookedAt, Affinity, Nhood, Size;
  }

  lemma PairsRise(s: Search, u: map<Edge, real>, met: set<Drawn>)
    requires s.Valid() && Greatest(s, u, met)
    ensures forall q | q in u :: q.0 < q.1
  {
    hide Adjacent, PairAt, AffinityAt;
    forall q | q in u ensures q.0 < q.1 {
      assert Attained(s, u, met, q);
      var p :| p in met && Adjacent(s, p) && PairAt(s, p) == q && AffinityAt(s, p) == u[q];
      PairIs(s, p, 0.0);
    }
  }

  lemma GraphDone(s: Search, u: map<Edge, real>, graph: seq<Weighted>)
    requires s.Valid() && Greatest(s, u, Met(s, 3, 0)) && EntriesOf(graph, u, u.Keys)
    ensures GraphOfRegions(s, graph)
  {
    hide Adjacent, PairAt, AffinityAt, JoinAt, Ordered, AllOnce, Met;
    forall e | e in graph ensures MeetAt(s, e) {
      assert Attained(s, u, Met(s, 3, 0), (e.a, e.b));
      var p :| p in Met(s, 3, 0) && Adjacent(s, p) && PairAt(s, p) == (e.a, e.b) && AffinityAt(s, p) == u[(e.a, e.b)];
      PairIs(s, p, e.weight);
    }
    forall p | Adjacent(s, p) ensures EntryFor(s, graph, p) {
      MetAll(s, p);
      assert Covered(s, u, p);
      var q := PairAt(s, p);
      PairIs(s, p, u[q]);
      assert Weighted(u[q], q.0, q.1) in graph;
    }
  }

  lemma JoinUnread(s: Search, over: seq<real>, p: Drawn, e: Weighted)
    requires s.Valid() && s.(conn := over).Valid() && Adjacent(s, p) && Adjacent(s.(conn := over), p) && JoinAt(s, p, e)
    ensures JoinAt(s.(conn := over), p, e)
  {
  }

  /** Nor in the graph. */
  lemma GraphUnread(s: Search, over: seq<real>, graph: seq<Weighted>)
    requires s.Valid() && s.inner && SameInside(s.conn, over, s.d) && GraphOfRegions(s, graph)
    ensures s.(conn := over).Valid() && GraphOfRegions(s.(conn := over), graph)
  {
    hide Size, Adjacent, AffinityAt, JoinAt, SameInside;
    var r := s.(conn := over);
    BetweenUnread(s, over, (0, 0));
    forall e | e in graph ensures MeetAt(r, e) {
      assert MeetAt(s, e);
      var p: Drawn :| Adjacent(s, p) && JoinAt(s, p, e) && AffinityAt(s, p) == e.weight;
      BetweenUnread(s, over, p);
      JoinUnread(s, over, p, e);
    }
    forall p | Adjacent(r, p) ensures EntryFor(r, graph, p) {
      BetweenUnread(s, over, p);
      assert EntryFor(s, graph, p);
      var e :| e in graph && JoinAt(s, p, e) && e.weight >= AffinityAt(s, p);
      JoinUnread(s, over, p, e);
    }
  }

  /** Its edges join two regions that have numbers, as the merging pass expects. */
  lemma GraphJoinsRegions(s: Search, graph: seq<Weighted>, n: nat)
    requires s.Valid() && GraphOfRegions(s, graph) && forall l | l in s.ids :: l < n
    ensures RegionGraph(graph, n)
  {
    forall e | e in graph ensures 1 <= e.a < n && 1 <= e.b < n && e.a != e.b {
      assert MeetAt(s, e);
      var p: Drawn :| Adjacent(s, p) && JoinAt(s, p, e) && AffinityAt(s, p) == e.weight;
      hide LookedAt, Size, Nhood, Affinity;
      assert s.ids[p.0] in s.ids && s.ids[p.0 + Nhood(s.d)[p.1]] in s.ids;
    }
  }

  // ---------- by coordinates ----------

  /** The voxel before (x, y, z) in direction k = 0, 1, 2. */
  ghost function Back(d: Dims, x: nat, y: nat, z: nat, k: nat): (j: int) {
    if k == 0 && x > 0 then Index(d, x - 1, y, z) else if k == 1 && y > 0 then Index(d, x, y - 1, z)
    else if k == 2 && z > 0 then Index(d, x, y, z - 1) else -1
  }

  ghost predicate HasBack(d: Dims, x: nat, y: nat, z: nat, k: nat) {
    x < d.x && y < d.y && z < d.z && k < 3 && (k == 0 ==> x > 0) && (k == 1 ==> y > 0) && (k == 2 ==> z > 0)
  }

  /** All pairs of voxels side by side are looked at; where the search is for inner voxels alone, just those back from an
      inner voxel. */
  lemma NeighboursLooked(s: Search, x: nat, y: nat, z: nat, k: nat)
    requires HasBack(s.d, x, y, z, k)
    ensures Index(s.d, x, y, z) < Size(s.d) && 0 <= Back(s.d, x, y, z, k) < Size(s.d)
    ensures Index(s.d, x, y, z) + Nhood(s.d)[k] == Back(s.d, x, y, z, k)
    ensures LookedAt(s, Index(s.d, x, y, z), k) <==> !s.inner || Inner(s.d, x, y, z)
  {
    hide Index, Size, XOf, YOf, ZOf;
    IndexInside(s.d, x, y, z);
    Coordinates(s.d, x, y, z);
    if k == 0 { NextX(s.d, x - 1, y, z); IndexInside(s.d, x - 1, y, z); }
    else if k == 1 { UpY(s.d, x, y - 1, z); IndexInside(s.d, x, y - 1, z); }
    else { UpZ(s.d, x, y, z - 1); IndexInside(s.d, x, y, z - 1); }
  }

  /** Two voxels side by side in different regions, at least `least` close. */
  ghost predicate Touching(s: Search, x: nat, y: nat, z: nat, k: nat)
    requires s.Valid() && HasBack(s.d, x, y, z, k)
  {
    var u, v := Index(s.d, x, y, z), Back(s.d, x, y, z, k);
    u < Size(s.d) && 0 <= v < Size(s.d) && s.ids[u] != 0 && s.ids[v] != 0 && s.ids[u] != s.ids[v] && Affinity(s.conn, s.d, u, k) >= s.least
  }

  ghost predicate EntryBetween(s: Search, e: Weighted, x: nat, y: nat, z: nat, k: nat)
    requires s.Valid() && HasBack(s.d, x, y, z, k) && Touching(s, x, y, z, k)
  {
    Join(e, s.ids[Index(s.d, x, y, z)], s.ids[Back(s.d, x, y, z, k)])
  }

  /** Where regions touch, at an inner voxel if the search is for these alone, they have an entry that weighs no less. */
  lemma TouchingEntered(s: Search, graph: seq<Weighted>, x: nat, y: nat, z: nat, k: nat) returns (e: Weighted)
    requires s.Valid() && GraphOfRegions(s, graph) && HasBack(s.d, x, y, z, k) && Touching(s, x, y, z, k)
    requires !s.inner || Inner(s.d, x, y, z)
    ensures e in graph && EntryBetween(s, e, x, y, z, k) && e.weight >= Affinity(s.conn, s.d, Index(s.d, x, y, z), k)
  {
    NeighboursLooked(s, x, y, z, k);
    hide Index, Size, XOf, YOf, ZOf, Back, Nhood, LookedAt, Affinity;
    var p := (Index(s.d, x, y, z), k);
    assert Adjacent(s, p) && EntryFor(s, graph, p);
    e :| e in graph && JoinAt(s, p, e) && e.weight >= AffinityAt(s, p);
  }

  /** Every entry comes from a place where its two regions touch, with just its weight. */
  lemma EntryTouches(s: Search, graph: seq<Weighted>, e: Weighted) returns (x: nat, y: nat, z: nat, k: nat)
    requires s.Valid() && GraphOfRegions(s, graph) && e in graph
    ensures HasBack(s.d, x, y, z, k) && Touching(s, x, y, z, k) && (!s.inner || Inner(s.d, x, y, z))
    ensures EntryBetween(s, e, x, y, z, k) && e.weight == Affinity(s.conn, s.d, Index(s.d, x, y, z), k)
  {
    assert MeetAt(s, e);
    var p: Drawn :| Adjacent(s, p) && JoinAt(s, p, e) && AffinityAt(s, p) == e.weight;
    AllIndexed(s.d, p.0);
    x, y, z, k := XOf(s.d, p.0), YOf(s.d, p.0), ZOf(s.d, p.0), p.1;
    hide Index, Size, XOf, YOf, ZOf, Nhood, Affinity;
    assert HasBack(s.d, x, y, z, k);
    NeighboursLooked(s, x, y, z, k);
  }

  /** Builds the region graph. */
  method CreateGraph(s: Search) returns (graph: seq<Weighted>)
    requires s.Valid()
    ensures GraphOfRegions(s, graph)
  {
    hide Size, Greatest, Met, GraphOfRegions, EntriesOf;
    MetStart(s);
    var uniques: map<Edge, real> := map[];
    for k := 0 to 3
      invariant Greatest(s, uniques, Met(s, k, 0))
    {
      uniques := MeetPass(s, k, uniques);
    }
    PairsRise(s, uniques, Met(s, 3, 0));
    graph := SortEntries(uniques);
    GraphDone(s, uniques, graph);
  }

  lemma MetStart(s: Search)
    requires s.Valid()
    ensures Greatest(s, map[], Met(s, 0, 0))
  {
    hide Size;
    assert Met(s, 0, 0) == {};
  }
}
