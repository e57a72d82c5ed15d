/** Union-find with union by rank: the forest of parents refines a partition, kept as the
    sequence of representatives, and the partition is the one the unions asked for. */
module DisjointSets {
  import opened Counting
  import opened Paths

  // ---------- partitions ----------

  /** `rep[i]` is the representative of the class of `i`. */
  ghost predicate IsPartition(rep: seq<nat>) {
    forall i | 0 <= i < |rep| :: rep[i] < |rep| && rep[rep[i]] == rep[i]
  }

  function Identity(n: nat): (rep: seq<nat>) {
    seq(n, i => i)
  }

  /** The classes of `x` and `y` become one, represented by `w`. */
  function Merge(rep: seq<nat>, x: nat, y: nat, w: nat): (m: seq<nat>)
  {
    seq(|rep|, i requires 0 <= i < |rep| => if rep[i] == x || rep[i] == y then w else rep[i])
  }

  function Members(rep: seq<nat>, r: nat): (s: set<nat>) {
    set i | 0 <= i < |rep| && rep[i] == r
  }

  function Roots(rep: seq<nat>): (s: set<nat>) {
    set i | 0 <= i < |rep| && rep[i] == i
  }

  /** The classes of `rep` are exactly the connected components of `es` on the vertices below |rep|. */
  ghost predicate Represents(rep: seq<nat>, es: set<Edge>) {
    forall a: nat, b: nat | a < |rep| && b < |rep| :: rep[a] == rep[b] <==> Connected(es, a, b)
  }

  lemma IdentityRepresents(n: nat)
    ensures IsPartition(Identity(n)) && Represents(Identity(n), {})
  {
    forall a: nat, b: nat | a < n && b < n
      ensures Identity(n)[a] == Identity(n)[b] <==> Connected({}, a, b)
    {
      ReachRefl(Both({}), a);
      if Connected({}, a, b) {
        ReachClosed(Both({}), iset{a}, a, b);
      }
    }
  }

  /** Merging the classes of the two ends of an edge is adding that edge. */
  lemma MergeRepresents(rep: seq<nat>, es: set<Edge>, a: nat, b: nat, w: nat)
    requires IsPartition(rep) && Represents(rep, es)
    requires a < |rep| && b < |rep| && (w == rep[a] || w == rep[b])
    ensures IsPartition(Merge(rep, rep[a], rep[b], w))
    ensures Represents(Merge(rep, rep[a], rep[b], w), es + {(a, b)})
  {
    var m := Merge(rep, rep[a], rep[b], w);
    forall u: nat, v: nat | u < |m| && v < |m|
      ensures m[u] == m[v] <==> Connected(es + {(a, b)}, u, v)
    {
      ConnectedAdd(es, a, b, u, v);
      assert rep[u] == rep[a] <==> Connected(es, u, a);
      assert rep[u] == rep[b] <==> Connected(es, u, b);
      assert rep[a] == rep[v] <==> Connected(es, a, v);
      assert rep[b] == rep[v] <==> Connected(es, b, v);
      assert rep[u] == rep[v] <==> Connected(es, u, v);
    }
  }

  /** A pair already together adds nothing. */
  lemma SameClassRepresents(rep: seq<nat>, es: set<Edge>, a: nat, b: nat)
    requires Represents(rep, es) && a < |rep| && b < |rep| && rep[a] == rep[b]
    ensures Represents(rep, es + {(a, b)})
  {
    forall u: nat, v: nat | u < |rep| && v < |rep|
      ensures rep[u] == rep[v] <==> Connected(es + {(a, b)}, u, v)
    {
      ConnectedAdd(es, a, b, u, v);
      assert rep[u] == rep[a] <==> Connected(es, u, a);
      assert rep[u] == rep[b] <==> Connected(es, u, b);
      assert rep[a] == rep[v] <==> Connected(es, a, v);
      assert rep[b] == rep[v] <==> Connected(es, b, v);
      assert rep[u] == rep[v] <==> Connected(es, u, v);
    }
  }

  // ---------- ranks ----------

  function Pow2(k: nat): (p: nat)
    ensures p >= 1
  {
    if k == 0 then 1 else 2 * Pow2(k - 1)
  }

  /** Root ranks are at most the logarithm of the class size, and frozen ranks of non-roots stay
      below the logarithm of the universe. */
  ghost predicate RanksSmall(rep: seq<nat>, rank: seq<nat>) {
    && |rank| == |rep|
    && (forall i | 0 <= i < |rep| && rep[i] == i :: Pow2(rank[i]) <= |Members(rep, i)|)
    && (forall i | 0 <= i < |rep| :: Pow2(rank[i]) <= |rep|)
  }

  /** `q` may be the parent of `i`: in the same class, and of larger rank unless `i` is the root. */
  ghost predicate Link(rank: seq<nat>, rep: seq<nat>, i: nat, q: nat)
    requires |rank| == |rep| && i < |rep|
  {
    && q < |rep| && rep[q] == rep[i]
    && (q == i <==> rep[i] == i)
    && (q != i ==> rank[i] < rank[q])
  }

  /** Every parent link leads to a strictly larger rank within the same class. */
  ghost predicate ForestOf(parent: seq<nat>, rank: seq<nat>, rep: seq<nat>) {
    && |parent| == |rank| == |rep|
    && (forall i {:trigger parent[i]} | 0 <= i < |rep| :: Link(rank, rep, i, parent[i]))
  }

  lemma {:induction false} Pow2Mono(a: nat, b: nat)
    requires a <= b
    ensures Pow2(a) <= Pow2(b)
    decreases b
  {
    if a < b { Pow2Mono(a, b - 1); }
  }

  lemma {:induction false} Pow2Above(k: nat)
    ensures k < Pow2(k)
  {
    if k != 0 { Pow2Above(k - 1); }
  }

  lemma InitialRanks(n: nat)
    ensures RanksSmall(Identity(n), seq(n, _ => 0))
  {
    var rep := Identity(n);
    forall i | 0 <= i < n ensures 1 <= |Members(rep, i)| {
      assert i in Members(rep, i);
      assert Members(rep, i) != {};
    }
  }

  /** Union by rank: the loser's rank is not above the winner's, and the winner's rank goes up by one
      exactly on a tie. */
  function RankAfter(rank: seq<nat>, x: nat, y: nat): (r: seq<nat>)
    requires x < |rank| && y < |rank|
  {
    if rank[x] == rank[y] then rank[x := rank[x] + 1] else rank
  }

  lemma MembersOfMerge(rep: seq<nat>, x: nat, y: nat, w: nat)
    requires IsPartition(rep) && x < |rep| && y < |rep| && x != y
    requires rep[x] == x && rep[y] == y && (w == x || w == y)
    ensures Members(Merge(rep, x, y, w), w) == Members(rep, x) + Members(rep, y)
    ensures |Members(Merge(rep, x, y, w), w)| == |Members(rep, x)| + |Members(rep, y)|
    ensures forall r: nat | r != x && r != y :: Members(Merge(rep, x, y, w), r) == Members(rep, r)
    ensures Roots(Merge(rep, x, y, w)) == Roots(rep) - {if w == x then y else x}
  {
    var m := Merge(rep, x, y, w);
    assert Members(m, w) == Members(rep, x) + Members(rep, y);
    assert Members(rep, x) !! Members(rep, y);
  }

  lemma MembersBound(rep: seq<nat>, r: nat)
    ensures |Members(rep, r)| <= |rep|
  {
    SubsetSize(Members(rep, r), Below(|rep|));
  }

  lemma MergeKeepsPartition(rep: seq<nat>, x: nat, y: nat, w: nat)
    requires IsPartition(rep) && x < |rep| && y < |rep| && rep[x] == x && rep[y] == y && (w == x || w == y)
    ensures IsPartition(Merge(rep, x, y, w)) && |Merge(rep, x, y, w)| == |rep|
  {
  }

  lemma JoinKeepsRanks(rep: seq<nat>, rank: seq<nat>, x: nat, y: nat, w: nat)
    requires IsPartition(rep) && RanksSmall(rep, rank)
    requires x < |rep| && y < |rep| && x != y && rep[x] == x && rep[y] == y
    requires w == if rank[x] >= rank[y] then x else y
    ensures IsPartition(Merge(rep, x, y, w)) && RanksSmall(Merge(rep, x, y, w), RankAfter(rank, x, y))
  {
    var m, rk := Merge(rep, x, y, w), RankAfter(rank, x, y);
    assert Pow2(rk[w]) <= Pow2(rank[x]) + Pow2(rank[y]);
    hide Members, Pow2, Merge, IsPartition;
    MergeKeepsPartition(rep, x, y, w);
    MembersOfMerge(rep, x, y, w);
    MembersBound(m, w);
    forall i: nat | i < |m| && m[i] == i ensures Pow2(rk[i]) <= |Members(m, i)| {
      assert i in Roots(m);
      if i != w { assert rep[i] == i && i != x && i != y; }
    }
  }

  /** The steps from `i` to its root; the rank bound makes the walk finite. */
  ghost function Depth(parent: seq<nat>, rank: seq<nat>, rep: seq<nat>, i: nat): (d: nat)
    requires ForestOf(parent, rank, rep) && RanksSmall(rep, rank) && i < |rep|
    decreases |rep| - rank[i]
  {
    Pow2Above(rank[i]);
    if parent[i] == i then 0 else
      Pow2Above(rank[parent[i]]);
      1 + Depth(parent, rank, rep, parent[i])
  }

  /** A parent chain is no longer than the base-two logarithm of the number of elements. */
  lemma {:induction false} DepthLogarithmic(parent: seq<nat>, rank: seq<nat>, rep: seq<nat>, i: nat)
    requires IsPartition(rep) && ForestOf(parent, rank, rep) && RanksSmall(rep, rank) && i < |rep|
    ensures rank[i] + Depth(parent, rank, rep, i) <= rank[rep[i]]
    ensures Pow2(Depth(parent, rank, rep, i)) <= |rep|
    decreases |rep| - rank[i]
  {
    Pow2Above(rank[i]);
    if parent[i] != i {
      Pow2Above(rank[parent[i]]);
      DepthLogarithmic(parent, rank, rep, parent[i]);
    }
    Pow2Mono(Depth(parent, rank, rep, i), rank[rep[i]]);
  }

  /** With fewer than 2^k elements no rank reaches k: below 2^256 elements a byte holds it. */
  lemma RankFits(rep: seq<nat>, rank: seq<nat>, i: nat, k: nat)
    requires RanksSmall(rep, rank) && i < |rep| < Pow2(k)
    ensures rank[i] < k
  {
    if k <= rank[i] { Pow2Mono(k, rank[i]); }
  }

  // ---------- runs of unions ----------

  /** The observable state: who represents whom, and the ranks that decide winners. */
  datatype Classes = Classes(rep: seq<nat>, rank: seq<nat>)

  /** `join` on two distinct roots. */
  function JoinRoots(c: Classes, x: nat, y: nat): (d: Classes)
    requires |c.rep| == |c.rank| && x < |c.rank| && y < |c.rank|
  {
    Classes(Merge(c.rep, x, y, Winner(c.rank, x, y)), RankAfter(c.rank, x, y))
  }

  function Winner(rank: seq<nat>, x: nat, y: nat): (w: nat)
    requires x < |rank| && y < |rank|
  {
    if rank[x] >= rank[y] then x else y
  }

  ghost predicate WellFormed(c: Classes) {
    IsPartition(c.rep) && RanksSmall(c.rep, c.rank)
  }

  /** The effect of joining the sets of `a` and `b`. */
  ghost function JoinSets(c: Classes, a: nat, b: nat): (d: Classes)
    requires WellFormed(c) && a < |c.rep| && b < |c.rep|
  {
    if c.rep[a] == c.rep[b] then c else JoinRoots(c, c.rep[a], c.rep[b])
  }

  lemma JoinSetsWellFormed(c: Classes, a: nat, b: nat)
    requires WellFormed(c) && a < |c.rep| && b < |c.rep|
    ensures |JoinSets(c, a, b).rep| == |c.rep| && WellFormed(JoinSets(c, a, b))
  {
    var x, y := c.rep[a], c.rep[b];
    if x != y {
      JoinKeepsRanks(c.rep, c.rank, x, y, Winner(c.rank, x, y));
    }
  }

  lemma JoinSetsRepresents(c: Classes, es: set<Edge>, a: nat, b: nat)
    requires WellFormed(c) && Represents(c.rep, es) && a < |c.rep| && b < |c.rep|
    ensures Represents(JoinSets(c, a, b).rep, es + {(a, b)})
  {
    var x, y := c.rep[a], c.rep[b];
    if x == y {
      SameClassRepresents(c.rep, es, a, b);
    } else {
      MergeRepresents(c.rep, es, a, b, Winner(c.rank, x, y));
    }
  }

  /** The state after joining the sets of the pairs of `ops` in order, from `n` singletons. */
  ghost function AfterJoins(n: nat, ops: seq<Edge>): (c: Classes)
    requires forall e | e in ops :: e.0 < n && e.1 < n
    ensures |c.rep| == n && WellFormed(c)
  {
    if ops == [] then
      InitialRanks(n);
      Classes(Identity(n), seq(n, _ => 0))
    else
      var c, e := AfterJoins(n, ops[..|ops| - 1]), ops[|ops| - 1];
      JoinSetsWellFormed(c, e.0, e.1);
      JoinSets(c, e.0, e.1)
  }

  /** Two elements share a set after a run of unions exactly when the joined pairs connect them. */
  lemma {:induction false} JoinsFormComponents(n: nat, ops: seq<Edge>)
    requires forall e | e in ops :: e.0 < n && e.1 < n
    ensures Represents(AfterJoins(n, ops).rep, EdgesOf(ops))
  {
    if ops == [] {
      IdentityRepresents(n);
      assert EdgesOf(ops) == {};
    } else {
      var before, e := ops[..|ops| - 1], ops[|ops| - 1];
      JoinsFormComponents(n, before);
      JoinSetsRepresents(AfterJoins(n, before), EdgesOf(before), e.0, e.1);
      assert ops == before + [e];
      assert EdgesOf(ops) == EdgesOf(before) + {(e.0, e.1)};
    }
  }

  // ---------- the data structure ----------

  /** The arrays agree with the partition `rep`, and `sets` counts its classes. */
  ghost predicate Consistent(parent: seq<nat>, rank: seq<nat>, rep: seq<nat>, sets: nat) {
    && IsPartition(rep)
    && ForestOf(parent, rank, rep)
    && RanksSmall(rep, rank)
    && sets == |Roots(rep)|
  }

  lemma JoinKeepsConsistent(parent: seq<nat>, rank: seq<nat>, rep: seq<nat>, sets: nat, x: nat, y: nat)
    requires Consistent(parent, rank, rep, sets) && x < |rep| && y < |rep| && x != y
    requires rep[x] == x && rep[y] == y
    ensures sets > 0
    ensures var w := Winner(rank, x, y);
      Consistent(parent[(if w == x then y else x) := w], RankAfter(rank, x, y), Merge(rep, x, y, w), sets - 1)
  {
    var w := Winner(rank, x, y);
    JoinKeepsRanks(rep, rank, x, y, w);
    JoinCountsRoots(rep, x, y, w);
    JoinKeepsForest(parent, rank, rep, x, y, w);
  }

  class UnionFind {
    const size: nat
    const p: array<nat>
    const r: array<nat>
    var sets: nat
    ghost var rep: seq<nat>

    ghost predicate Valid()
      reads this, p, r
    {
      && p != r && p.Length == r.Length == size == |rep|
      && Consistent(p[..], r[..], rep, sets)
    }

    ghost function State(): Classes
      reads this, r
    {
      Classes(rep, r[..])
    }

    constructor (s: nat)
      ensures Valid() && size == s && fresh(p) && fresh(r)
      ensures State() == Classes(Identity(s), seq(s, _ => 0)) && sets == s
    {
      size := s;
      p := new nat[s];
      r := new nat[s];
      sets := s;
      rep := Identity(s);
      new;
      for i := 0 to s
        invariant rep == Identity(s) && sets == s
        invariant forall k | 0 <= k < i :: p[k] == k && r[k] == 0
      {
        p[i] := i;
        r[i] := 0;
      }
      Fresh();
    }

    /** What the initial arrays mean. */
    lemma Fresh()
      requires p != r && p.Length == r.Length == size
      requires rep == Identity(size) && sets == size
      requires forall k | 0 <= k < size :: p[k] == k && r[k] == 0
      ensures Valid() && r[..] == seq(size, _ => 0)
    {
      InitialRanks(size);
      assert r[..] == seq(size, _ => 0);
      assert Roots(rep) == Below(size);
    }

    /** Returns the root; afterwards `id`, and nothing else, hangs directly below it. */
    method FindSet(id: nat) returns (n: nat)
      requires Valid() && id < size
      modifies p
      ensures Valid() && State() == old(State()) && sets == old(sets)
      ensures n == rep[id] && n < size && rep[n] == n
      ensures p[..] == old(p[..])[id := n]
    {
      ghost var parent, rank := p[..], r[..];
      n := id;
      while n != p[n]
        invariant n < size && rep[n] == rep[id]
        invariant p[..] == parent
        decreases size - r[n]
      {
        AboveBound(parent, rank, rep, n);
        assert p[n] == parent[n];
        n := p[n];
      }
      assert n == parent[n] == rep[id];
      CompressKeepsForest(parent, rank, rep, id);
      var i := id;
      while n != i
        invariant i == n || i == id || (i == parent[id] && id != n)
        invariant p[..] == if i == id && i != n then parent else parent[id := n]
        decreases if i == n then 0 else if p[id] == n then 1 else 2
      {
        var x := p[id];
        p[id] := n;
        i := x;
      }
    }

    /** Joins two sets given by their roots. */
    method Join(x: nat, y: nat) returns (w: nat)
      requires Valid() && x < size && y < size
      requires x == y || (rep[x] == x && rep[y] == y)
      modifies this`sets, this`rep, p, r
      ensures Valid()
      ensures State() == if x == y then old(State()) else JoinRoots(old(State()), x, y)
      ensures w == if x == y then x else Winner(old(r[..]), x, y)
      ensures sets == if x == y then old(sets) else old(sets) - 1
    {
      if x == y { return x; }
      ghost var rank, parent, was := r[..], p[..], rep;
      JoinKeepsConsistent(parent, rank, was, sets, x, y);
      sets := sets - 1;
      rep := Merge(was, x, y, Winner(rank, x, y));
      if r[x] >= r[y] {
        p[y] := x;
        assert p[..] == parent[y := x];
        if r[x] == r[y] { r[x] := r[x] + 1; }
        w := x;
      } else {
        p[x] := y;
        assert p[..] == parent[x := y];
        w := y;
      }
      assert r[..] == RankAfter(rank, x, y) by {
        assert forall k | 0 <= k < size :: r[..][k] == RankAfter(rank, x, y)[k];
      }
    }

    /** Every element on its own again. */
    method Clear()
      requires Valid()
      modifies this, p, r
      ensures Valid()
      ensures State() == Classes(Identity(size), seq(size, _ => 0)) && sets == size
    {
      for i := 0 to size
        invariant forall k | 0 <= k < i :: p[k] == k && r[k] == 0
      {
        p[i] := i;
        r[i] := 0;
      }
      sets := size;
      rep := Identity(size);
      Fresh();
    }
  }

  /** Ranks stay below the number of elements along a parent link. */
  lemma AboveBound(parent: seq<nat>, rank: seq<nat>, rep: seq<nat>, i: nat)
    requires ForestOf(parent, rank, rep) && RanksSmall(rep, rank) && i < |rep|
    ensures rank[i] < |rep| && rank[parent[i]] < |rep|
  {
    Pow2Above(rank[i]);
    Pow2Above(rank[parent[i]]);
  }

  lemma CompressKeepsForest(parent: seq<nat>, rank: seq<nat>, rep: seq<nat>, i: nat)
    requires IsPartition(rep) && ForestOf(parent, rank, rep) && RanksSmall(rep, rank) && i < |rep|
    ensures ForestOf(parent[i := rep[i]], rank, rep)
  {
    if rep[i] != i { RankBelowRoot(parent, rank, rep, i); }
  }

  lemma RankBelowRoot(parent: seq<nat>, rank: seq<nat>, rep: seq<nat>, i: nat)
    requires IsPartition(rep) && ForestOf(parent, rank, rep) && RanksSmall(rep, rank)
    requires i < |rep| && rep[i] != i
    ensures rank[i] < rank[rep[i]]
  {
    DepthLogarithmic(parent, rank, rep, parent[i]);
  }

  lemma JoinCountsRoots(rep: seq<nat>, x: nat, y: nat, w: nat)
    requires IsPartition(rep) && x < |rep| && y < |rep| && x != y
    requires rep[x] == x && rep[y] == y && (w == x || w == y)
    ensures |Roots(rep)| >= 1 && |Roots(Merge(rep, x, y, w))| == |Roots(rep)| - 1
  {
    MembersOfMerge(rep, x, y, w);
    assert x in Roots(rep) && y in Roots(rep);
  }

  lemma JoinKeepsForest(parent: seq<nat>, rank: seq<nat>, rep: seq<nat>, x: nat, y: nat, w: nat)
    requires IsPartition(rep) && ForestOf(parent, rank, rep)
    requires x < |rep| && y < |rep| && x != y && rep[x] == x && rep[y] == y
    requires w == Winner(rank, x, y)
    ensures ForestOf(parent[(if w == x then y else x) := w], RankAfter(rank, x, y), Merge(rep, x, y, w))
  {
  }
}
