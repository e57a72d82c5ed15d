/** The flood fill of the watershed: voxels joined by direction marks become one region, with one label. */
module FloodFill {
  import opened Counting
  import opened Paths

  // ---------- voxels ----------

  /** What the word of a voxel says: first the directions it is joined in, whether it is to be labelled in any case, and
      whether the fill has seen it; in the end its label. */
  datatype Word = Marks(dirs: set<nat>, counted: bool, visited: bool) | Label(id: nat)

  predicate Empty(w: Word) {
    w.Marks? && w.dirs == {} && !w.counted && !w.visited
  }

  predicate Visited(w: Word) {
    w.Label? || w.visited
  }

  function Visit(w: Word): (r: Word) {
    if w.Label? then w else w.(visited := true)
  }

  /** The word without the visited bit, where the fill is over: the label, or zero. */
  function Clear(w: Word): (l: nat) {
    if w.Label? then w.id else 0
  }

  /** The neighbour of v in direction z. */
  function Near(nhood: seq<int>, v: nat, z: nat): (u: nat)
    requires z < |nhood|
  {
    if v + nhood[z] >= 0 then v + nhood[z] else 0
  }

  function Opposite(z: nat): (o: nat) {
    if z < 3 then z + 3 else z - 3
  }

  /** Fresh words, whose marks lead from voxel to voxel inside the volume and back. */
  ghost predicate WellMarked(w: seq<Word>, nhood: seq<int>) {
    && |nhood| == 6 && (|w| > 0 ==> forall z {:trigger nhood[z]} | 0 <= z < 6 :: nhood[z] != 0)
    && forall v: nat {:trigger VoxelMarked(w, nhood, v)} | v < |w| :: VoxelMarked(w, nhood, v)
  }

  ghost predicate VoxelMarked(w: seq<Word>, nhood: seq<int>, v: nat) {
    && v < |w| && w[v].Marks? && !w[v].visited
    && forall z {:trigger MarkOk(w, nhood, v, z)} | z in w[v].dirs :: MarkOk(w, nhood, v, z)
  }

  ghost predicate MarkOk(w: seq<Word>, nhood: seq<int>, v: nat, z: nat) {
    && z < 6 && |nhood| == 6 && 0 <= v + nhood[z] < |w| && w[Near(nhood, v, z)].Marks? && Opposite(z) in w[Near(nhood, v, z)].dirs
    && nhood[Opposite(z)] == -nhood[z]
  }

  /** Voxel v is joined to u by a mark. */
  ghost predicate Joined(w: seq<Word>, nhood: seq<int>, v: nat, u: nat) {
    exists z: nat {:trigger JoinedBy(w, nhood, v, u, z)} :: JoinedBy(w, nhood, v, u, z)
  }

  ghost predicate JoinedBy(w: seq<Word>, nhood: seq<int>, v: nat, u: nat, z: nat) {
    v < |w| && z < 6 && |nhood| == 6 && w[v].Marks? && z in w[v].dirs && u == Near(nhood, v, z)
  }

  /** The graph of the marks. */
  ghost function Graph(w: seq<Word>, nhood: seq<int>): (g: set<Edge>) {
    set v: nat, u: nat | v in Below(|w|) && u in Below(|w|) && Joined(w, nhood, v, u) :: (v, u)
  }

  lemma GraphEdge(w: seq<Word>, nhood: seq<int>, v: nat, z: nat)
    requires WellMarked(w, nhood) && v < |w| && w[v].Marks? && z in w[v].dirs
    ensures z < 6 && v + nhood[z] == Near(nhood, v, z) < |w| && Near(nhood, v, z) != v
    ensures (v, Near(nhood, v, z)) in Graph(w, nhood)
  {
    assert VoxelMarked(w, nhood, v) && MarkOk(w, nhood, v, z);
    assert JoinedBy(w, nhood, v, Near(nhood, v, z), z);
    assert nhood[z] != 0;
  }

  /** Marks go both ways. */
  lemma GraphSymmetric(w: seq<Word>, nhood: seq<int>)
    requires WellMarked(w, nhood)
    ensures Both(Graph(w, nhood)) == Graph(w, nhood)
    ensures forall e | e in Graph(w, nhood) :: e.0 < |w| && e.1 < |w| && !Empty(w[e.0])
  {
    var g := Graph(w, nhood);
    forall e | e in g ensures (e.1, e.0) in g && e.0 < |w| && e.1 < |w| && !Empty(w[e.0]) {
      assert Joined(w, nhood, e.0, e.1);
      var z: nat :| JoinedBy(w, nhood, e.0, e.1, z);
      assert VoxelMarked(w, nhood, e.0) && MarkOk(w, nhood, e.0, z);
      assert JoinedBy(w, nhood, e.1, e.0, Opposite(z));
      assert Joined(w, nhood, e.1, e.0);
    }
    assert forall f | f in g :: (f.1, f.0) in g;
  }

  lemma ReachBack(g: set<Edge>, a: nat, b: nat)
    requires Both(g) == g && Reach(g, a, b)
    ensures Reach(g, b, a)
  {
    assert Connected(g, a, b);
    ConnectedSym(g, a, b);
  }

  // ---------- between two fills ----------

  /** v is as it was, or labelled. */
  ghost predicate WordOk(w0: seq<Word>, w: seq<Word>, next: nat, v: nat) {
    v < |w| == |w0| && ((w[v] == w0[v] && w[v].Marks?) || (w[v].Label? && 1 <= w[v].id < next && !Empty(w0[v])))
  }

  ghost predicate IsLabelled(w: seq<Word>, v: nat) {
    v < |w| && w[v].Label?
  }

  ghost predicate EdgeKept(w: seq<Word>, e: Edge) {
    IsLabelled(w, e.0) ==> IsLabelled(w, e.1)
  }

  /** Labels agree just within regions. */
  ghost predicate Agree(g: set<Edge>, w: seq<Word>, u: nat, v: nat) {
    IsLabelled(w, u) && IsLabelled(w, v) ==> (w[u].id == w[v].id <==> Reach(g, u, v))
  }

  ghost predicate LabelUsed(w: seq<Word>, l: nat) {
    exists v: nat :: IsLabelled(w, v) && w[v].id == l
  }

  /** Labels go by the first voxels of the regions: before a label the one below it is met. */
  ghost predicate InTurn(w: seq<Word>, v: nat) {
    IsLabelled(w, v) && w[v].id > 1 ==> LabelBefore(w, v, w[v].id - 1)
  }

  ghost predicate LabelBefore(w: seq<Word>, i: nat, l: nat) {
    exists u: nat :: u < i && IsLabelled(w, u) && w[u].id == l
  }

  /** The voxels before i are labelled or empty, with labels 1 to next - 1, one to a region, in turn. */
  ghost predicate Filled(w0: seq<Word>, g: set<Edge>, w: seq<Word>, i: nat, next: nat) {
    && |w| == |w0| && next >= 1
    && (forall v: nat {:trigger WordOk(w0, w, next, v)} | v < |w| :: WordOk(w0, w, next, v))
    && (forall v: nat {:trigger w[v]} | v < i && v < |w| :: IsLabelled(w, v) || Empty(w0[v]))
    && (forall e {:trigger EdgeKept(w, e)} | e in g :: EdgeKept(w, e))
    && (forall u: nat, v: nat {:trigger Agree(g, w, u, v)} :: Agree(g, w, u, v))
    && (forall l: nat {:trigger LabelBefore(w, i, l)} | 1 <= l < next :: LabelBefore(w, i, l))
    && (forall v: nat {:trigger InTurn(w, v)} :: InTurn(w, v))
  }

  // ---------- one fill ----------

  /** Inside a fill from `seed`: `done` has its label, `queue` is to be looked at, `cur`, if any, is being looked at. All
      but a seed that is the first of its region are marked as visited. */
  datatype Fill = Fill(seed: nat, done: set<nat>, queue: seq<nat>, cur: set<nat>)

  ghost predicate InFill(f: Fill, v: nat) {
    v in f.done || v in f.queue || v in f.cur
  }

  ghost predicate FillWord(w1: seq<Word>, w: seq<Word>, f: Fill, next: nat, v: nat) {
    v < |w| == |w1| &&
    w[v] == if v in f.done then Label(next)
            else if InFill(f, v) && (v != f.seed || f.done != {}) then Visit(w1[v])
            else w1[v]
  }

  ghost predicate Member(g: set<Edge>, w1: seq<Word>, f: Fill, v: nat) {
    InFill(f, v) ==> v < |w1| && !IsLabelled(w1, v) && Reach(g, f.seed, v)
  }

  ghost predicate EdgeSeen(f: Fill, e: Edge) {
    e.0 in f.done ==> InFill(f, e.1)
  }

  ghost predicate DistinctQueue(f: Fill) {
    && (forall i, j | 0 <= i < |f.queue| && 0 <= j < |f.queue| && f.queue[i] == f.queue[j] :: i == j)
    && (forall v | v in f.queue :: v !in f.done && v !in f.cur) && f.cur !! f.done
  }

  ghost predicate Filling(g: set<Edge>, w1: seq<Word>, w: seq<Word>, f: Fill, next: nat) {
    && |w| == |w1| && InFill(f, f.seed) && DistinctQueue(f)
    && (f.done == {} ==> if f.cur == {} then f.queue == [f.seed] else f.cur == {f.seed})
    && (forall v: nat {:trigger FillWord(w1, w, f, next, v)} | v < |w| :: FillWord(w1, w, f, next, v))
    && (forall v: nat {:trigger Member(g, w1, f, v)} :: Member(g, w1, f, v))
    && (forall e {:trigger EdgeSeen(f, e)} | e in g :: EdgeSeen(f, e))
  }

  /** The marks of the voxel being looked at, before direction z, lead into the fill. */
  ghost predicate Scanned(w0: seq<Word>, nhood: seq<int>, f: Fill, cur: nat, z: nat) {
    cur < |w0| && |nhood| == 6 && w0[cur].Marks? &&
    forall d: nat {:trigger d in w0[cur].dirs} | d < z && d < 6 && d in w0[cur].dirs :: InFill(f, Near(nhood, cur, d))
  }

  lemma StartFill(w0: seq<Word>, g: set<Edge>, w: seq<Word>, i: nat, next: nat)
    requires Filled(w0, g, w, i, next) && i < |w| && !Visited(w[i])
    ensures Filling(g, w, w, Fill(i, {}, [i], {}), next)
  {
    ReachRefl(g, i);
  }

  /** Taking the first voxel off the queue. */
  lemma Dequeue(g: set<Edge>, w1: seq<Word>, w: seq<Word>, f: Fill, next: nat)
    requires Filling(g, w1, w, f, next) && f.queue != [] && f.cur == {}
    ensures Filling(g, w1, w, f.(queue := f.queue[1..], cur := {f.queue[0]}), next)
  {
    var r := f.(queue := f.queue[1..], cur := {f.queue[0]});
    forall v ensures InFill(r, v) <==> InFill(f, v) {
      if v in f.queue { var i :| 0 <= i < |f.queue| && f.queue[i] == v; assert i > 0 ==> r.queue[i - 1] == v; }
    }
    forall v: nat | v < |w| ensures FillWord(w1, w, r, next, v) { assert FillWord(w1, w, f, next, v); }
    forall v: nat ensures Member(g, w1, r, v) { assert Member(g, w1, f, v); }
    forall e | e in g ensures EdgeSeen(r, e) { assert EdgeSeen(f, e); }
    assert f.done == {} ==> f.queue == [f.seed];
    forall v | v in r.queue ensures v !in r.cur { assert v in f.queue; }
  }

  /** A neighbour not seen yet is marked as visited and queued. */
  lemma See(g: set<Edge>, w1: seq<Word>, w: seq<Word>, f: Fill, next: nat, cur: nat, pot: nat)
    requires Filling(g, w1, w, f, next) && f.cur == {cur} && (cur, pot) in g && cur != pot && pot < |w|
    requires forall e | e in g && IsLabelled(w1, e.1) :: IsLabelled(w1, e.0)
    ensures !Visited(w[pot]) ==> Filling(g, w1, w[pot := Visit(w[pot])], f.(queue := f.queue + [pot]), next)
    ensures Visited(w[pot]) && Fresh(w1, pot) ==> InFill(f, pot)
    ensures !IsLabelled(w1, pot)
  {
    assert Member(g, w1, f, cur) && FillWord(w1, w, f, next, pot);
    ReachEdge(g, cur, pot);
    ReachTrans(g, f.seed, cur, pot);
    if !Visited(w[pot]) {
      assert Member(g, w1, f, f.seed);
      Enqueue(g, w1, w, f, next, cur, pot);
    }
  }

  ghost predicate Fresh(w: seq<Word>, v: nat) {
    v < |w| && !Visited(w[v])
  }

  lemma Enqueue(g: set<Edge>, w1: seq<Word>, w: seq<Word>, f: Fill, next: nat, cur: nat, pot: nat)
    requires Filling(g, w1, w, f, next) && f.cur == {cur} && cur != pot && pot < |w| && !Visited(w[pot])
    requires Reach(g, f.seed, pot) && !IsLabelled(w1, pot)
    ensures Filling(g, w1, w[pot := Visit(w[pot])], f.(queue := f.queue + [pot]), next)
  {
    var r, w' := f.(queue := f.queue + [pot]), w[pot := Visit(w[pot])];
    assert FillWord(w1, w, f, next, pot);
    assert f.done == {} ==> cur == f.seed;
    assert !InFill(f, pot);
    forall v ensures InFill(r, v) <==> InFill(f, v) || v == pot {
    }
    forall v: nat | v < |w'| ensures FillWord(w1, w', r, next, v) { assert FillWord(w1, w, f, next, v); }
    forall v: nat ensures Member(g, w1, r, v) { assert Member(g, w1, f, v); }
    forall e | e in g ensures EdgeSeen(r, e) { assert EdgeSeen(f, e); }
  }

  /** All its directions scanned, the voxel gets its label. */
  lemma Finish(w0: seq<Word>, nhood: seq<int>, w1: seq<Word>, w: seq<Word>, f: Fill, next: nat, cur: nat)
    requires WellMarked(w0, nhood) && |w0| == |w| && Filling(Graph(w0, nhood), w1, w, f, next) && f.cur == {cur}
    requires Scanned(w0, nhood, f, cur, 6)
    ensures Filling(Graph(w0, nhood), w1, w[cur := Label(next)], f.(done := f.done + {cur}, cur := {}), next)
  {
    var g, r, w' := Graph(w0, nhood), f.(done := f.done + {cur}, cur := {}), w[cur := Label(next)];
    forall v ensures InFill(r, v) <==> InFill(f, v) {
    }
    forall v: nat | v < |w'| ensures FillWord(w1, w', r, next, v) {
      assert FillWord(w1, w, f, next, v);
    }
    forall v: nat ensures Member(g, w1, r, v) { assert Member(g, w1, f, v); }
    forall e | e in g ensures EdgeSeen(r, e) {
      assert EdgeSeen(f, e);
      if e.0 == cur {
        assert Joined(w0, nhood, cur, e.1);
        var z: nat :| JoinedBy(w0, nhood, cur, e.1, z);
        assert z in w0[cur].dirs;
      }
    }
  }

  /** With nothing left to look at, the fill is the region of its seed. */
  lemma FillIsRegion(g: set<Edge>, w1: seq<Word>, w: seq<Word>, f: Fill, next: nat, v: nat)
    requires Filling(g, w1, w, f, next) && f.queue == [] && f.cur == {}
    ensures v in f.done <==> Reach(g, f.seed, v)
  {
    assert Member(g, w1, f, v);
    if Reach(g, f.seed, v) {
      var s := iset u: nat | u in f.done;
      forall e | e in g && e.0 in s ensures e.1 in s { assert EdgeSeen(f, e); }
      ReachClosed(g, s, f.seed, v);
    }
  }

  lemma EndFill(w0: seq<Word>, g: set<Edge>, w1: seq<Word>, w: seq<Word>, f: Fill, i: nat, next: nat)
    requires Filled(w0, g, w1, i, next) && Filling(g, w1, w, f, next) && f.queue == [] && f.cur == {} && f.seed == i
    requires Both(g) == g && forall v: nat {:trigger w0[v]} | v < |w0| && Empty(w0[v]) :: v !in f.done
    ensures Filled(w0, g, w, i + 1, next + 1)
  {
    var m, n := i + 1, next + 1;
    assert i in f.done;
    forall v: nat | v < |w| ensures WordOk(w0, w, n, v) {
      assert FillWord(w1, w, f, next, v) && WordOk(w0, w1, next, v) && Member(g, w1, f, v);
    }
    forall v: nat | v < m && v < |w| ensures IsLabelled(w, v) || Empty(w0[v]) {
      assert FillWord(w1, w, f, next, v);
      assert v < i ==> IsLabelled(w1, v) || Empty(w0[v]);
    }
    forall e | e in g ensures EdgeKept(w, e) {
      assert EdgeKept(w1, e) && EdgeSeen(f, e);
      LabelledAfter(g, w1, w, f, next, e.0);
      LabelledAfter(g, w1, w, f, next, e.1);
    }
    forall u: nat, v: nat ensures Agree(g, w, u, v) {
      AgreeAfter(w0, g, w1, w, f, i, next, u, v);
    }
    forall l: nat | 1 <= l < n ensures LabelBefore(w, m, l) {
      if l == next {
        LabelledAfter(g, w1, w, f, next, i);
      } else {
        assert LabelBefore(w1, i, l);
        BeforeAfter(g, w1, w, f, i, next, l);
      }
    }
    forall v: nat ensures InTurn(w, v) {
      InTurnAfter(w0, g, w1, w, f, i, next, v);
    }
  }

  lemma BeforeAfter(g: set<Edge>, w1: seq<Word>, w: seq<Word>, f: Fill, i: nat, next: nat, l: nat)
    requires Filling(g, w1, w, f, next) && f.queue == [] && f.cur == {} && LabelBefore(w1, i, l)
    ensures LabelBefore(w, i, l) && LabelBefore(w, i + 1, l)
  {
    var u: nat :| u < i && IsLabelled(w1, u) && w1[u].id == l;
    LabelledAfter(g, w1, w, f, next, u);
    assert u < i + 1;
  }

  lemma InTurnAfter(w0: seq<Word>, g: set<Edge>, w1: seq<Word>, w: seq<Word>, f: Fill, i: nat, next: nat, v: nat)
    requires Filled(w0, g, w1, i, next) && Filling(g, w1, w, f, next) && f.queue == [] && f.cur == {} && f.seed == i
    requires forall v: nat {:trigger w0[v]} | v < |w0| && Empty(w0[v]) :: v !in f.done
    ensures InTurn(w, v)
  {
    LabelledAfter(g, w1, w, f, next, v);
    if v in f.done {
      assert v >= i;
      if next > 1 {
        assert LabelBefore(w1, i, next - 1);
        BeforeAfter(g, w1, w, f, i, next, next - 1);
      }
    } else if IsLabelled(w, v) {
      assert InTurn(w1, v);
      if w[v].id > 1 { BeforeAfter(g, w1, w, f, v, next, w[v].id - 1); }
    }
  }

  /** What is labelled after the fill: what was, as it was, and the fill. */
  lemma LabelledAfter(g: set<Edge>, w1: seq<Word>, w: seq<Word>, f: Fill, next: nat, v: nat)
    requires Filling(g, w1, w, f, next) && f.queue == [] && f.cur == {}
    ensures IsLabelled(w, v) <==> IsLabelled(w1, v) || v in f.done
    ensures v in f.done ==> !IsLabelled(w1, v) && v < |w| && w[v] == Label(next)
    ensures IsLabelled(w1, v) ==> v < |w| && w[v] == w1[v]
  {
    assert Member(g, w1, f, v);
    if v < |w| { assert FillWord(w1, w, f, next, v); }
  }

  lemma AgreeAfter(w0: seq<Word>, g: set<Edge>, w1: seq<Word>, w: seq<Word>, f: Fill, i: nat, next: nat, u: nat, v: nat)
    requires Filled(w0, g, w1, i, next) && Filling(g, w1, w, f, next) && f.queue == [] && f.cur == {} && Both(g) == g
    ensures Agree(g, w, u, v)
  {
    LabelledAfter(g, w1, w, f, next, u);
    LabelledAfter(g, w1, w, f, next, v);
    if IsLabelled(w, u) && IsLabelled(w, v) {
      FillIsRegion(g, w1, w, f, next, u);
      FillIsRegion(g, w1, w, f, next, v);
      if u in f.done && v in f.done {
        ReachBack(g, f.seed, u);
        ReachTrans(g, u, f.seed, v);
      } else if u in f.done {
        assert WordOk(w0, w1, next, v);
        if Reach(g, u, v) { ReachTrans(g, f.seed, u, v); }
      } else if v in f.done {
        assert WordOk(w0, w1, next, u);
        if Reach(g, u, v) { ReachBack(g, u, v); ReachTrans(g, f.seed, v, u); }
      } else {
        assert Agree(g, w1, u, v);
      }
    }
  }

  // ---------- the loops ----------

  /** The word of the voxel being looked at still has its marks. */
  lemma CurMarks(w0: seq<Word>, nhood: seq<int>, w1: seq<Word>, w: seq<Word>, f: Fill, i: nat, next: nat, cur: nat)
    requires WellMarked(w0, nhood) && Filled(w0, Graph(w0, nhood), w1, i, next) && Filling(Graph(w0, nhood), w1, w, f, next)
    requires f.cur == {cur}
    ensures cur < |w| == |w0| && w[cur].Marks? && w0[cur].Marks? && w[cur].dirs == w0[cur].dirs && cur !in f.done
  {
    assert Member(Graph(w0, nhood), w1, f, cur) && FillWord(w1, w, f, next, cur) && WordOk(w0, w1, next, cur);
  }

  /** Following one mark: the voxel it leads to is in the fill afterwards. */
  lemma Follow(w0: seq<Word>, nhood: seq<int>, w1: seq<Word>, w: seq<Word>, f: Fill, i: nat, next: nat, cur: nat, z: nat)
    requires WellMarked(w0, nhood) && Filled(w0, Graph(w0, nhood), w1, i, next) && Filling(Graph(w0, nhood), w1, w, f, next)
    requires f.cur == {cur} && cur < |w0| && w0[cur].Marks? && z in w0[cur].dirs && Scanned(w0, nhood, f, cur, z)
    ensures z < 6 && Near(nhood, cur, z) < |w|
    ensures var pot := Near(nhood, cur, z); var r := f.(queue := f.queue + [pot]);
      if Visited(w[pot]) then Scanned(w0, nhood, f, cur, z + 1)
      else Filling(Graph(w0, nhood), w1, w[pot := Visit(w[pot])], r, next) && Scanned(w0, nhood, r, cur, z + 1)
  {
    GraphEdge(w0, nhood, cur, z);
    var g, pot := Graph(w0, nhood), Near(nhood, cur, z);
    GraphSymmetric(w0, nhood);
    forall e | e in g && IsLabelled(w1, e.1) ensures IsLabelled(w1, e.0) {
      assert (e.1, e.0) in Both(g);
      assert EdgeKept(w1, (e.1, e.0));
    }
    See(g, w1, w, f, next, cur, pot);
    assert WordOk(w0, w1, next, pot) && VoxelMarked(w0, nhood, pot);
    var r := f.(queue := f.queue + [pot]);
    assert forall v :: InFill(f, v) ==> InFill(r, v);
    assert InFill(r, pot) by { assert r.queue[|f.queue|] == pot; }
    ScanNext(w0, nhood, f, f, cur, z);
    ScanNext(w0, nhood, f, r, cur, z);
  }

  lemma ScanNext(w0: seq<Word>, nhood: seq<int>, f: Fill, r: Fill, cur: nat, z: nat)
    requires Scanned(w0, nhood, f, cur, z) && forall v :: InFill(f, v) ==> InFill(r, v)
    ensures z < 6 && (z in w0[cur].dirs ==> InFill(r, Near(nhood, cur, z))) ==> Scanned(w0, nhood, r, cur, z + 1)
  {
  }

  /** Looks at voxel `cur` in all six directions. */
  method Scan(result: array<Word>, nhood: seq<int>, cur: nat, queue0: seq<nat>, ghost w0: seq<Word>, ghost w1: seq<Word>, ghost f0: Fill,
        ghost i: nat, ghost next: nat)
      returns (queue: seq<nat>, ghost f: Fill)
    requires WellMarked(w0, nhood) && Filled(w0, Graph(w0, nhood), w1, i, next)
    requires Filling(Graph(w0, nhood), w1, result[..], f0, next) && f0.cur == {cur} && f0.queue == queue0
    modifies result
    ensures Filling(Graph(w0, nhood), w1, result[..], f, next) && f == f0.(queue := queue)
    ensures Scanned(w0, nhood, f, cur, 6) && cur < result.Length
  {
    hide WellMarked, Filled, Filling, Scanned, Graph;
    f, queue := f0, queue0;
    ScanStart(w0, nhood, w1, result[..], f, i, next, cur);
    for z := 0 to 6
      invariant Filling(Graph(w0, nhood), w1, result[..], f, next) && f == f0.(queue := queue)
      invariant Scanned(w0, nhood, f, cur, z)
    {
      CurMarks(w0, nhood, w1, result[..], f, i, next, cur);
      if z in result[cur].dirs {
        Follow(w0, nhood, w1, result[..], f, i, next, cur, z);
        var pot := Near(nhood, cur, z);
        if !Visited(result[pot]) {
          ghost var w := result[..];
          result[pot] := Visit(result[pot]);
          assert result[..] == w[pot := Visit(w[pot])];
          queue := queue + [pot];
          f := f.(queue := f.queue + [pot]);
        }
      } else {
        ScanNext(w0, nhood, f, f, cur, z);
      }
    }
    CurMarks(w0, nhood, w1, result[..], f, i, next, cur);
  }

  lemma ScanStart(w0: seq<Word>, nhood: seq<int>, w1: seq<Word>, w: seq<Word>, f: Fill, i: nat, next: nat, cur: nat)
    requires WellMarked(w0, nhood) && Filled(w0, Graph(w0, nhood), w1, i, next) && Filling(Graph(w0, nhood), w1, w, f, next)
    requires f.cur == {cur}
    ensures Scanned(w0, nhood, f, cur, 0) && |nhood| == 6
  {
    CurMarks(w0, nhood, w1, w, f, i, next, cur);
  }

  ghost function LabelledVoxels(w: seq<Word>): (s: set<nat>) {
    set v | v in Below(|w|) && IsLabelled(w, v)
  }

  /** Fills the region of voxel i: as many voxels are taken off the queue as it has, so each of them once. */
  method FillRegion(result: array<Word>, nhood: seq<int>, i: nat, next: nat, ghost w0: seq<Word>) returns (ghost region: set<nat>, ghost looked: nat)
    requires WellMarked(w0, nhood) && Filled(w0, Graph(w0, nhood), result[..], i, next) && i < result.Length && !Visited(result[i]) && !Empty(result[i])
    modifies result
    ensures Filled(w0, Graph(w0, nhood), result[..], i + 1, next + 1)
    ensures forall v {:trigger v in region} :: v in region <==> Reach(Graph(w0, nhood), i, v)
    ensures looked == |region|
    ensures LabelledVoxels(result[..]) == LabelledVoxels(old(result[..])) + region && LabelledVoxels(old(result[..])) !! region
  {
    ghost var g, w1 := Graph(w0, nhood), result[..];
    StartFill(w0, g, w1, i, next);
    NotEmptyAt(w0, nhood, w1, i, next);
    hide WellMarked, Filled, Filling, Scanned, Graph;
    var queue: seq<nat> := [i];
    ghost var f := Fill(i, {}, [i], {});
    looked := 0;
    while queue != []
      invariant Filling(g, w1, result[..], f, next) && f.queue == queue && f.cur == {} && f.seed == i
      invariant looked == |f.done|
      decreases Below(result.Length) - f.done
    {
      ghost var done0 := f.done;
      var cur := queue[0];
      looked := looked + 1;
      Dequeue(g, w1, result[..], f, next);
      queue := queue[1..];
      f := f.(queue := f.queue[1..], cur := {cur});
      queue, f := Scan(result, nhood, cur, queue, w0, w1, f, i, next);
      CurMarks(w0, nhood, w1, result[..], f, i, next, cur);
      Finish(w0, nhood, w1, result[..], f, next, cur);
      ghost var w := result[..];
      result[cur] := Label(next);
      assert result[..] == w[cur := Label(next)];
      f := f.(done := f.done + {cur}, cur := {});
      assert cur in Below(result.Length) - done0;
    }
    FillEnds(w0, nhood, w1, result[..], f, i, next);
    region := f.done;
  }

  lemma NotEmptyAt(w0: seq<Word>, nhood: seq<int>, w1: seq<Word>, i: nat, next: nat)
    requires WellMarked(w0, nhood) && Filled(w0, Graph(w0, nhood), w1, i, next) && i < |w1| && !Visited(w1[i]) && !Empty(w1[i])
    ensures |w0| == |w1| && !Empty(w0[i])
  {
    assert WordOk(w0, w1, next, i);
  }

  lemma FillEnds(w0: seq<Word>, nhood: seq<int>, w1: seq<Word>, w: seq<Word>, f: Fill, i: nat, next: nat)
    requires WellMarked(w0, nhood) && Filled(w0, Graph(w0, nhood), w1, i, next) && i < |w0| && !Empty(w0[i])
    requires Filling(Graph(w0, nhood), w1, w, f, next) && f.queue == [] && f.cur == {} && f.seed == i
    ensures Filled(w0, Graph(w0, nhood), w, i + 1, next + 1)
    ensures forall v {:trigger v in f.done} :: v in f.done <==> Reach(Graph(w0, nhood), i, v)
    ensures LabelledVoxels(w) == LabelledVoxels(w1) + f.done && LabelledVoxels(w1) !! f.done
  {
    var g := Graph(w0, nhood);
    forall v: nat ensures IsLabelled(w, v) <==> IsLabelled(w1, v) || v in f.done { LabelledAfter(g, w1, w, f, next, v); }
    forall v | v in f.done ensures v < |w| && !IsLabelled(w1, v) { LabelledAfter(g, w1, w, f, next, v); }
    GraphSymmetric(w0, nhood);
    forall v ensures v in f.done <==> Reach(g, i, v) { FillIsRegion(g, w1, w, f, next, v); }
    forall v: nat | v < |w0| && Empty(w0[v]) ensures v !in f.done {
      if Reach(g, i, v) {
        var s := iset u: nat | u < |w0| && !Empty(w0[u]);
        forall e | e in g && e.0 in s ensures e.1 in s { assert (e.1, e.0) in Both(g); }
        ReachClosed(g, s, i, v);
      }
    }
    EndFill(w0, g, w1, w, f, i, next);
  }

  // ---------- the labels ----------

  /** Label zero where there was nothing, else one label to each connected region, numbered in turn. */
  ghost predicate Domains(w0: seq<Word>, g: set<Edge>, w: seq<Word>, next: nat) {
    && |w| == |w0| && next >= 1
    && (forall v: nat {:trigger DomainWord(w0, w, next, v)} | v < |w| :: DomainWord(w0, w, next, v))
    && (forall u: nat, v: nat {:trigger SameDomain(w0, g, w, u, v)} | u < |w| && v < |w| :: SameDomain(w0, g, w, u, v))
    && (forall l: nat {:trigger LabelUsed(w, l)} | 1 <= l < next :: LabelUsed(w, l))
    && (forall v: nat {:trigger InTurn(w, v)} :: InTurn(w, v))
  }

  ghost predicate DomainWord(w0: seq<Word>, w: seq<Word>, next: nat, v: nat) {
    v < |w| == |w0| && w[v].Label? && w[v].id < next && (w[v].id == 0 <==> Empty(w0[v]))
  }

  ghost predicate SameDomain(w0: seq<Word>, g: set<Edge>, w: seq<Word>, u: nat, v: nat) {
    u < |w| == |w0| && v < |w| && w[u].Label? && w[v].Label? &&
    (!Empty(w0[u]) && !Empty(w0[v]) ==> (w[u].id == w[v].id <==> Reach(g, u, v)))
  }

  function Cleared(w: seq<Word>): (r: seq<Word>)
    ensures |r| == |w| && forall v | 0 <= v < |w| :: r[v] == Label(Clear(w[v]))
  {
    seq(|w|, v requires 0 <= v < |w| => Label(Clear(w[v])))
  }

  lemma DomainsFound(w0: seq<Word>, g: set<Edge>, w: seq<Word>, next: nat)
    requires Filled(w0, g, w, |w|, next)
    ensures Domains(w0, g, Cleared(w), next)
  {
    var r := Cleared(w);
    forall v: nat | v < |r| ensures DomainWord(w0, r, next, v) {
      assert WordOk(w0, w, next, v);
      assert IsLabelled(w, v) || Empty(w0[v]);
    }
    forall u: nat, v: nat | u < |r| && v < |r| ensures SameDomain(w0, g, r, u, v) {
      assert IsLabelled(w, u) || Empty(w0[u]);
      assert IsLabelled(w, v) || Empty(w0[v]);
      assert Agree(g, w, u, v);
    }
    forall l: nat | 1 <= l < next ensures LabelUsed(r, l) {
      assert LabelBefore(w, |w|, l);
      ClearedBefore(w, |w|, l);
      var v: nat :| v < |w| && IsLabelled(r, v) && r[v].id == l;
    }
    forall v: nat ensures InTurn(r, v) {
      assert InTurn(w, v);
      if IsLabelled(r, v) && r[v].id > 1 { ClearedBefore(w, v, r[v].id - 1); }
    }
  }

  lemma ClearedBefore(w: seq<Word>, i: nat, l: nat)
    requires LabelBefore(w, i, l)
    ensures LabelBefore(Cleared(w), i, l)
  {
    var v: nat :| v < i && IsLabelled(w, v) && w[v].id == l;
    assert IsLabelled(Cleared(w), v);
  }

  /** The voxels before m with label k that count. */
  ghost function Having(w: seq<Word>, counts: nat -> bool, m: nat, k: nat): (s: set<nat>) {
    set v | v in Below(m) && v < |w| && w[v] == Label(k) && counts(v)
  }

  /** `sizes[k]` counts the voxels before m that count and have label k. */
  ghost predicate Sized(sizes: seq<nat>, w: seq<Word>, counts: nat -> bool, m: nat) {
    forall k: nat {:trigger Having(w, counts, m, k)} | k < |sizes| :: sizes[k] == |Having(w, counts, m, k)|
  }

  lemma HavingNot(w: seq<Word>, counts: nat -> bool, m: nat, k: nat)
    ensures m !in Having(w, counts, m, k)
  {
  }

  lemma HavingNext(w: seq<Word>, counts: nat -> bool, m: nat, k: nat)
    requires m < |w| && w[m].Label?
    ensures |Having(w, counts, m + 1, k)| == |Having(w, counts, m, k)| + (if w[m].id == k && counts(m) then 1 else 0)
  {
    var s, r := Having(w, counts, m, k), Having(w, counts, m + 1, k);
    forall v ensures v in r <==> v in s || (v == m && w[m].id == k && counts(m)) {
    }
    hide Having;
    if w[m].id == k && counts(m) {
      HavingNot(w, counts, m, k);
      assert r == s + {m};
    } else {
      assert r == s;
    }
  }

  lemma SizedNext(sizes: seq<nat>, w: seq<Word>, counts: nat -> bool, m: nat)
    requires Sized(sizes, w, counts, m) && m < |w| && w[m].Label? && w[m].id < |sizes|
    ensures Sized(if counts(m) then sizes[w[m].id := sizes[w[m].id] + 1] else sizes, w, counts, m + 1)
  {
    var sizes', n := if counts(m) then sizes[w[m].id := sizes[w[m].id] + 1] else sizes, m + 1;
    forall k: nat | k < |sizes'| ensures sizes'[k] == |Having(w, counts, n, k)| {
      HavingNext(w, counts, m, k);
      assert sizes[k] == |Having(w, counts, m, k)|;
    }
  }

  ghost function MarkedVoxels(w: seq<Word>): (s: set<nat>) {
    set v | v in Below(|w|) && !Empty(w[v])
  }

  /** Labels every region, and counts its voxels: all of them, or those off the border of the volume, as `counts` says. The
      queue hands out as many voxels as are marked. */
  method InitialDomains(result: array<Word>, nhood: seq<int>, counts: nat -> bool) returns (sizes: seq<nat>, next: nat, ghost looked: nat)
    requires WellMarked(result[..], nhood)
    modifies result
    ensures Domains(old(result[..]), Graph(old(result[..]), nhood), result[..], next)
    ensures |sizes| == next && Sized(sizes, result[..], counts, result.Length)
    ensures looked == |MarkedVoxels(old(result[..]))|
  {
    hide WellMarked, Filled, Graph, Domains, Sized, Reach, LabelledVoxels, MarkedVoxels;
    ghost var w0 := result[..];
    ghost var g := Graph(w0, nhood);
    FilledStart(w0, nhood);
    next, looked := 1, 0;
    for i := 0 to result.Length
      invariant next >= 1 && Filled(w0, g, result[..], i, next)
      invariant looked == |LabelledVoxels(result[..])|
    {
      if !Visited(result[i]) && !Empty(result[i]) {
        ghost var region, more := FillRegion(result, nhood, i, next, w0);
        next, looked := next + 1, looked + more;
      } else {
        FilledSkip(w0, nhood, result[..], i, next);
      }
    }
    AllLabelled(w0, g, result[..], next);
    sizes := CountVoxels(result, next, counts, w0, g);
  }

  lemma AllLabelled(w0: seq<Word>, g: set<Edge>, w: seq<Word>, next: nat)
    requires Filled(w0, g, w, |w|, next)
    ensures LabelledVoxels(w) == MarkedVoxels(w0)
  {
    forall v: nat | v < |w| ensures IsLabelled(w, v) <==> !Empty(w0[v]) {
      assert WordOk(w0, w, next, v) && w[v] == w[v];
    }
  }

  lemma FilledStart(w0: seq<Word>, nhood: seq<int>)
    requires WellMarked(w0, nhood)
    ensures Filled(w0, Graph(w0, nhood), w0, 0, 1) && LabelledVoxels(w0) == {}
  {
    var g := Graph(w0, nhood);
    forall v: nat | v < |w0| ensures WordOk(w0, w0, 1, v) && !IsLabelled(w0, v) { assert VoxelMarked(w0, nhood, v); }
  }

  lemma FilledSkip(w0: seq<Word>, nhood: seq<int>, w: seq<Word>, i: nat, next: nat)
    requires WellMarked(w0, nhood) && Filled(w0, Graph(w0, nhood), w, i, next) && i < |w| && (Visited(w[i]) || Empty(w[i]))
    ensures Filled(w0, Graph(w0, nhood), w, i + 1, next)
  {
    assert WordOk(w0, w, next, i) && VoxelMarked(w0, nhood, i);
    var m := i + 1;
    forall v: nat | v < m && v < |w| ensures IsLabelled(w, v) || Empty(w0[v]) {
      assert w[v] == w[v];
    }
    forall l: nat | 1 <= l < next ensures LabelBefore(w, m, l) {
      assert LabelBefore(w, i, l);
    }
  }

  /** The last loop: visited bits go, sizes are counted. */
  method CountVoxels(result: array<Word>, next: nat, counts: nat -> bool, ghost w0: seq<Word>, ghost g: set<Edge>) returns (sizes: seq<nat>)
    requires next >= 1 && Filled(w0, g, result[..], result.Length, next)
    modifies result
    ensures Domains(w0, g, result[..], next) && |sizes| == next && Sized(sizes, result[..], counts, result.Length)
  {
    ghost var w := result[..];
    ghost var r := Cleared(w);
    DomainsFound(w0, g, w, next);
    LabelsBelow(w0, g, r, next);
    sizes := seq(next, _ => 0);
    SizedStart(sizes, r, counts);
    hide Filled, Domains, Sized;
    for i := 0 to result.Length
      invariant |sizes| == next && Sized(sizes, r, counts, i)
      invariant forall v | 0 <= v < i :: result[v] == r[v]
      invariant forall v | i <= v < result.Length :: result[v] == w[v]
    {
      SizedNext(sizes, r, counts, i);
      result[i] := Label(Clear(result[i]));
      if counts(i) { sizes := sizes[result[i].id := sizes[result[i].id] + 1]; }
    }
    assert result[..] == r;
  }

  lemma SizedStart(sizes: seq<nat>, w: seq<Word>, counts: nat -> bool)
    requires forall k | 0 <= k < |sizes| :: sizes[k] == 0
    ensures Sized(sizes, w, counts, 0)
  {
    forall k: nat | k < |sizes| ensures Having(w, counts, 0, k) == {} {
    }
  }

  lemma LabelsBelow(w0: seq<Word>, g: set<Edge>, w: seq<Word>, next: nat)
    requires Domains(w0, g, w, next)
    ensures forall v | 0 <= v < |w| :: w[v].Label? && w[v].id < next
  {
    forall v: nat | v < |w| ensures w[v].Label? && w[v].id < next { assert DomainWord(w0, w, next, v); }
  }
}
