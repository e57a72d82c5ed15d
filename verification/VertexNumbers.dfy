/** Numbering things in the order in which they first appear in a list. */
module VertexNumbers {

  /** The elements of a list, each once, in order of first appearance. */
  function Appearance<K(==)>(xs: seq<K>): (s: seq<K>) {
    if xs == [] then [] else
      var n := |xs| - 1;
      if xs[n] in Appearance(xs[..n]) then Appearance(xs[..n]) else Appearance(xs[..n]) + [xs[n]]
  }

  lemma {:induction false} AppearanceOnce<K(!new)>(xs: seq<K>)
    ensures forall x :: x in Appearance(xs) <==> x in xs
    ensures forall i, j | 0 <= i < |Appearance(xs)| && 0 <= j < |Appearance(xs)| && Appearance(xs)[i] == Appearance(xs)[j] :: i == j
  {
    if xs != [] {
      var n := |xs| - 1;
      AppearanceOnce(xs[..n]);
      assert xs == xs[..n] + [xs[n]];
    }
  }

  lemma AppearanceNext<K(!new)>(xs: seq<K>, x: K)
    ensures Appearance(xs + [x]) == if x in xs then Appearance(xs) else Appearance(xs) + [x]
  {
    AppearanceOnce(xs);
    assert (xs + [x])[..|xs|] == xs;
  }

  /** `m` numbers the elements of the list lo, lo + 1, ... in order of first appearance. */
  ghost predicate Numbers<K(!new)>(m: map<K, nat>, xs: seq<K>, lo: nat) {
    && (forall k :: k in m <==> k in xs)
    && forall i {:trigger Appearance(xs)[i]} | 0 <= i < |Appearance(xs)| :: Appearance(xs)[i] in m && m[Appearance(xs)[i]] == lo + i
  }

  lemma NumbersNext<K(!new)>(m: map<K, nat>, xs: seq<K>, lo: nat, x: K)
    requires Numbers(m, xs, lo)
    ensures Numbers(if x in m then m else m[x := lo + |Appearance(xs)|], xs + [x], lo)
    ensures |Appearance(xs + [x])| == if x in m then |Appearance(xs)| else |Appearance(xs)| + 1
  {
    AppearanceOnce(xs);
    AppearanceNext(xs, x);
    hide Appearance;
  }

  /** `m` gives its keys the numbers lo..hi-1, each once. */
  ghost predicate Numbering<K(!new)>(m: map<K, nat>, lo: nat, hi: nat) {
    && lo <= hi && (forall k | k in m :: lo <= m[k] < hi)
    && (forall a, b :: NoClash(m, a, b))
    && (forall i: nat {:trigger Named(m, i)} | lo <= i < hi :: Named(m, i))
  }

  ghost predicate NoClash<K>(m: map<K, nat>, a: K, b: K) {
    a in m && b in m && m[a] == m[b] ==> a == b
  }

  ghost predicate Named<K(!new)>(m: map<K, nat>, i: nat) {
    exists k :: k in m && m[k] == i
  }

  lemma NumbersOnce<K(!new)>(m: map<K, nat>, xs: seq<K>, lo: nat)
    requires Numbers(m, xs, lo)
    ensures Numbering(m, lo, lo + |Appearance(xs)|)
  {
    var s := Appearance(xs);
    AppearanceOnce(xs);
    hide Appearance;
    forall a, b ensures NoClash(m, a, b) {
      if a in m && b in m {
        assert a in s && b in s;
        var i :| 0 <= i < |s| && s[i] == a;
        var j :| 0 <= j < |s| && s[j] == b;
      }
    }
    forall k | k in m ensures lo <= m[k] < lo + |s| {
      assert k in s;
      var i :| 0 <= i < |s| && s[i] == k;
    }
    forall i: nat | lo <= i < lo + |s| ensures Named(m, i) {
      assert s[i - lo] in m && m[s[i - lo]] == i;
    }
  }

  /** `a` is met in the list before `b` is. */
  ghost predicate MetBefore<K>(xs: seq<K>, a: K, b: K) {
    exists k :: MetBeforeAt(xs, a, b, k)
  }

  ghost predicate MetBeforeAt<K>(xs: seq<K>, a: K, b: K, k: int) {
    0 <= k < |xs| && xs[k] == a && b !in xs[..k + 1]
  }

  lemma {:induction false} AppearanceOrder<K(!new)>(xs: seq<K>, i: nat, j: nat)
    requires i < j < |Appearance(xs)|
    ensures MetBefore(xs, Appearance(xs)[i], Appearance(xs)[j])
  {
    var n := |xs| - 1;
    var rest := xs[..n];
    var a, b := Appearance(xs)[i], Appearance(xs)[j];
    AppearanceOnce(rest);
    var k: int;
    if j < |Appearance(rest)| {
      AppearanceOrder(rest, i, j);
      k :| MetBeforeAt(rest, a, b, k);
    } else {
      assert a in rest;
      k :| 0 <= k < n && rest[k] == a;
      assert b == xs[n] && b !in rest;
    }
    assert xs[..k + 1] == rest[..k + 1];
    assert MetBeforeAt(xs, a, b, k);
  }

  /** Lower numbers go to what is met earlier. */
  lemma NumbersOrder<K(!new)>(m: map<K, nat>, xs: seq<K>, lo: nat, a: K, b: K)
    requires Numbers(m, xs, lo) && a in m && b in m && m[a] < m[b]
    ensures MetBefore(xs, a, b)
  {
    var s := Appearance(xs);
    AppearanceOnce(xs);
    assert a in s && b in s;
    var i :| 0 <= i < |s| && s[i] == a;
    var j :| 0 <= j < |s| && s[j] == b;
    AppearanceOrder(xs, i, j);
  }
}
