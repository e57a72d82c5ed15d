/** Reachability in a directed graph given by its set of edges, and the one lemma about how
    adding an undirected edge changes connectivity on which the union-find proofs rest. */
module Paths {

  type Edge = (nat, nat)

  function EdgesOf(es: seq<Edge>): (s: set<Edge>) {
    set e | e in es
  }

  /** There is a walk of exactly `n` edges from `a` to `b`. */
  ghost predicate ReachIn(es: set<Edge>, a: nat, b: nat, n: nat)
    decreases n
  {
    if n == 0 then a == b else exists c: nat :: (a, c) in es && ReachIn(es, c, b, n - 1)
  }

  ghost predicate Reach(es: set<Edge>, a: nat, b: nat) {
    exists n: nat :: ReachIn(es, a, b, n)
  }

  /** Every edge together with its reverse: the undirected reading of an edge set. */
  ghost function Both(es: set<Edge>): set<Edge> {
    es + set e | e in es :: (e.1, e.0)
  }

  ghost predicate Connected(es: set<Edge>, a: nat, b: nat) {
    Reach(Both(es), a, b)
  }

  lemma ReachRefl(es: set<Edge>, a: nat)
    ensures Reach(es, a, a)
  {
    assert ReachIn(es, a, a, 0);
  }

  lemma ReachEdge(es: set<Edge>, a: nat, b: nat)
    requires (a, b) in es
    ensures Reach(es, a, b)
  {
    assert ReachIn(es, b, b, 0);
    assert ReachIn(es, a, b, 1);
  }

  lemma {:induction false} ReachInTrans(es: set<Edge>, a: nat, b: nat, c: nat, m: nat, n: nat)
    requires ReachIn(es, a, b, m) && ReachIn(es, b, c, n)
    ensures ReachIn(es, a, c, m + n)
    decreases m
  {
    if m != 0 {
      var d: nat :| (a, d) in es && ReachIn(es, d, b, m - 1);
      ReachInTrans(es, d, b, c, m - 1, n);
    }
  }

  lemma ReachTrans(es: set<Edge>, a: nat, b: nat, c: nat)
    requires Reach(es, a, b) && Reach(es, b, c)
    ensures Reach(es, a, c)
  {
    var m: nat :| ReachIn(es, a, b, m);
    var n: nat :| ReachIn(es, b, c, n);
    ReachInTrans(es, a, b, c, m, n);
  }

  /** A set of vertices that no edge leaves contains everything reachable from its members. */
  lemma {:induction false} ReachInClosed(es: set<Edge>, s: iset<nat>, a: nat, b: nat, n: nat)
    requires a in s && ReachIn(es, a, b, n)
    requires forall e | e in es && e.0 in s :: e.1 in s
    ensures b in s
    decreases n
  {
    if n != 0 {
      var c: nat :| (a, c) in es && ReachIn(es, c, b, n - 1);
      assert (a, c).0 in s;
      ReachInClosed(es, s, c, b, n - 1);
    }
  }

  lemma ReachClosed(es: set<Edge>, s: iset<nat>, a: nat, b: nat)
    requires a in s && Reach(es, a, b)
    requires forall e | e in es && e.0 in s :: e.1 in s
    ensures b in s
  {
    var n: nat :| ReachIn(es, a, b, n);
    ReachInClosed(es, s, a, b, n);
  }

  lemma ReachMono(es: set<Edge>, fs: set<Edge>, a: nat, b: nat)
    requires es <= fs && Reach(es, a, b)
    ensures Reach(fs, a, b)
  {
    var s := iset v: nat | Reach(fs, a, v);
    ReachRefl(fs, a);
    forall e | e in es && e.0 in s ensures e.1 in s {
      ReachEdge(fs, e.0, e.1);
      ReachTrans(fs, a, e.0, e.1);
    }
    ReachClosed(es, s, a, b);
  }

  lemma ConnectedSym(es: set<Edge>, a: nat, b: nat)
    requires Connected(es, a, b)
    ensures Connected(es, b, a)
  {
    var s := iset v: nat | Connected(es, v, a);
    ReachRefl(Both(es), a);
    forall e | e in Both(es) && e.0 in s ensures e.1 in s {
      assert (e.1, e.0) in Both(es) by {
        if e !in es { var f :| f in es && e == (f.1, f.0); }
      }
      ReachEdge(Both(es), e.1, e.0);
      ReachTrans(Both(es), e.1, e.0, a);
    }
    ReachClosed(Both(es), s, a, b);
  }

  lemma ConnectedMono(es: set<Edge>, fs: set<Edge>, a: nat, b: nat)
    requires es <= fs && Connected(es, a, b)
    ensures Connected(fs, a, b)
  {
    ReachMono(Both(es), Both(fs), a, b);
  }

  /** What one more undirected edge (x, y) connects: pairs joined before, and pairs with one
      end joined to `x` and the other to `y`. */
  ghost predicate JoinedBy(es: set<Edge>, x: nat, y: nat, a: nat, b: nat) {
    || Connected(es, a, b)
    || (Connected(es, a, x) && Connected(es, y, b))
    || (Connected(es, a, y) && Connected(es, x, b))
  }

  lemma ConnectedStep(es: set<Edge>, a: nat, e: Edge)
    requires e in Both(es)
    ensures Connected(es, e.0, e.1)
    ensures Connected(es, a, e.0) ==> Connected(es, a, e.1)
  {
    ReachEdge(Both(es), e.0, e.1);
    if Connected(es, a, e.0) { ReachTrans(Both(es), a, e.0, e.1); }
  }

  lemma ConnectedAdd(es: set<Edge>, x: nat, y: nat, a: nat, b: nat)
    ensures Connected(es + {(x, y)}, a, b) <==> JoinedBy(es, x, y, a, b)
  {
    var fs := es + {(x, y)};
    if Connected(fs, a, b) {
      var s := iset v: nat | JoinedBy(es, x, y, a, v);
      ReachRefl(Both(es), a);
      ReachRefl(Both(es), x);
      ReachRefl(Both(es), y);
      forall e | e in Both(fs) && e.0 in s ensures e.1 in s {
        if e in Both(es) {
          ConnectedStep(es, a, e);
          ConnectedStep(es, x, e);
          ConnectedStep(es, y, e);
        } else {
          assert e == (x, y) || e == (y, x);
          if Connected(es, x, e.0) { ConnectedSym(es, x, e.0); }
        }
      }
      ReachClosed(Both(fs), s, a, b);
    }
    if JoinedBy(es, x, y, a, b) {
      ReachEdge(Both(fs), x, y);
      ReachEdge(Both(fs), y, x);
      if Connected(es, a, b) {
        ConnectedMono(es, fs, a, b);
      } else {
        var u, v := x, y;
        if !(Connected(es, a, x) && Connected(es, y, b)) { u, v := y, x; }
        ConnectedMono(es, fs, a, u);
        ConnectedMono(es, fs, v, b);
        ReachTrans(Both(fs), a, u, v);
        ReachTrans(Both(fs), a, v, b);
      }
    }
  }
}
