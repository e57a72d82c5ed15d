/** The bytes in which the stripper packs what it knows: for a face a validity bit, three used bits and a degree, for a side
    a validity bit. What the operations on bytes do is what the model does to its four fields. */
module MetaCodec {
  function Bit(b: bool, mask: bv8): (r: bv8) {
    if b then mask else 0
  }

  /** The byte for a validity bit, the used bits of sides 1, 2, 3 and a degree below sixteen. */
  function Pack(valid: bool, u1: bool, u2: bool, u3: bool, degree: bv8): (m: bv8) {
    Bit(valid, 1) | Bit(u1, 2) | Bit(u2, 4) | Bit(u3, 8) | (degree << 4)
  }

  function IsValid(m: bv8): (r: bool) {
    m & 1 != 0
  }

  function Unvalidate(m: bv8): (r: bv8) {
    m & 0xfe
  }

  function Degree(m: bv8): (r: bv8) {
    m >> 4
  }

  function Uses(m: bv8, e: bv3): (r: bool)
    requires 1 <= e <= 3
  {
    m & ((1 as bv8) << e) != 0
  }

  function UseEdge(m: bv8, e: bv3): (r: bv8)
    requires 1 <= e <= 3
  {
    (m + 0x10) | ((1 as bv8) << e)
  }

  function SetDegree(m: bv8, v: bv8): (r: bv8) {
    (m & 0x0f) | (v << 4)
  }

  /** Every part can be read back. */
  lemma ReadBack(valid: bool, u1: bool, u2: bool, u3: bool, degree: bv8)
    requires degree < 16
    ensures var m := Pack(valid, u1, u2, u3, degree);
      IsValid(m) == valid && Degree(m) == degree && Uses(m, 1) == u1 && Uses(m, 2) == u2 && Uses(m, 3) == u3
  {
  }

  lemma UnvalidatePacked(valid: bool, u1: bool, u2: bool, u3: bool, degree: bv8)
    requires degree < 16
    ensures Unvalidate(Pack(valid, u1, u2, u3, degree)) == Pack(false, u1, u2, u3, degree)
  {
  }

  lemma UseEdgePacked(valid: bool, u1: bool, u2: bool, u3: bool, degree: bv8, e: bv3)
    requires degree < 15 && 1 <= e <= 3
    ensures UseEdge(Pack(valid, u1, u2, u3, degree), e) == Pack(valid, u1 || e == 1, u2 || e == 2, u3 || e == 3, degree + 1)
  {
    assert e == 1 || e == 2 || e == 3;
  }

  lemma SetDegreePacked(valid: bool, u1: bool, u2: bool, u3: bool, degree: bv8, v: bv8)
    requires degree < 16 && v < 16
    ensures SetDegree(Pack(valid, u1, u2, u3, degree), v) == Pack(valid, u1, u2, u3, v)
  {
  }

  // ---------- all bytes ----------

  /** Degrees are at most three: two used sides, or the mark of a printed end. */
  function Digit(n: nat): (d: bv8)
    ensures d < 4
  {
    if n == 0 then 0 else if n == 1 then 1 else if n == 2 then 2 else 3
  }

  /** The number of a side of its face. */
  function Slot(k: nat): (e: bv3)
    requires 1 <= k <= 3
    ensures 1 <= e <= 3
  {
    if k == 1 then 1 else if k == 2 then 2 else 3
  }

  /** The byte at w for the model's fields. */
  ghost function ByteAt(n: nat, valid: seq<bool>, used: seq<bool>, deg: seq<nat>, w: nat): (m: bv8)
    requires |valid| == |used| == |deg| == 4 * n && w < 4 * n
  {
    if w % 4 == 0 then Pack(valid[w], used[w + 1], used[w + 2], used[w + 3], Digit(deg[w])) else Pack(valid[w], false, false, false, 0)
  }

  ghost predicate Packed(n: nat, meta: seq<bv8>, valid: seq<bool>, used: seq<bool>, deg: seq<nat>) {
    && |meta| == |valid| == |used| == |deg| == 4 * n
    && forall w: nat {:trigger ByteAt(n, valid, used, deg, w)} | w < 4 * n :: meta[w] == ByteAt(n, valid, used, deg, w)
  }

  /** Reading the bytes is reading the fields. */
  lemma BytesRead(n: nat, meta: seq<bv8>, valid: seq<bool>, used: seq<bool>, deg: seq<nat>, w: nat)
    requires Packed(n, meta, valid, used, deg) && w < 4 * n
    ensures IsValid(meta[w]) == valid[w]
    ensures w % 4 == 0 ==> Degree(meta[w]) == Digit(deg[w])
    ensures w % 4 == 0 ==> Uses(meta[w], 1) == used[w + 1] && Uses(meta[w], 2) == used[w + 2] && Uses(meta[w], 3) == used[w + 3]
  {
    hide Pack, IsValid, Degree, Uses;
    assert meta[w] == ByteAt(n, valid, used, deg, w);
    if w % 4 == 0 {
      ReadBack(valid[w], used[w + 1], used[w + 2], used[w + 3], Digit(deg[w]));
    } else {
      ReadBack(valid[w], false, false, false, 0);
    }
  }

  lemma BytesUnvalidate(n: nat, meta: seq<bv8>, valid: seq<bool>, used: seq<bool>, deg: seq<nat>, w: nat)
    requires Packed(n, meta, valid, used, deg) && w < 4 * n
    ensures Packed(n, meta[w := Unvalidate(meta[w])], valid[w := false], used, deg)
  {
    hide Pack, Unvalidate;
    var meta', valid' := meta[w := Unvalidate(meta[w])], valid[w := false];
    forall x: nat | x < 4 * n ensures meta'[x] == ByteAt(n, valid', used, deg, x) {
      assert meta[x] == ByteAt(n, valid, used, deg, x);
      if x == w {
        if w % 4 == 0 {
          UnvalidatePacked(valid[w], used[w + 1], used[w + 2], used[w + 3], Digit(deg[w]));
        } else {
          UnvalidatePacked(valid[w], false, false, false, 0);
        }
      }
    }
  }

  /** A face uses its side k for the first time. */
  lemma BytesUseEdge(n: nat, meta: seq<bv8>, valid: seq<bool>, used: seq<bool>, deg: seq<nat>, f: nat, k: nat)
    requires Packed(n, meta, valid, used, deg) && f < 4 * n && f % 4 == 0 && 1 <= k <= 3 && deg[f] < 3
    ensures f + k < |used| && Packed(n, meta[f := UseEdge(meta[f], Slot(k))], valid, used[f + k := true], deg[f := deg[f] + 1])
  {
    hide Pack, UseEdge;
    var meta', used', deg' := meta[f := UseEdge(meta[f], Slot(k))], used[f + k := true], deg[f := deg[f] + 1];
    forall x: nat | x < 4 * n ensures meta'[x] == ByteAt(n, valid, used', deg', x) {
      assert meta[x] == ByteAt(n, valid, used, deg, x);
      if x == f {
        UseEdgePacked(valid[f], used[f + 1], used[f + 2], used[f + 3], Digit(deg[f]), Slot(k));
        assert Digit(deg[f]) + 1 == Digit(deg[f] + 1);
      }
    }
  }

  lemma BytesSetDegree(n: nat, meta: seq<bv8>, valid: seq<bool>, used: seq<bool>, deg: seq<nat>, f: nat, v: nat)
    requires Packed(n, meta, valid, used, deg) && f < 4 * n && f % 4 == 0
    ensures Packed(n, meta[f := SetDegree(meta[f], Digit(v))], valid, used, deg[f := v])
  {
    hide Pack, SetDegree;
    var meta', deg' := meta[f := SetDegree(meta[f], Digit(v))], deg[f := v];
    forall x: nat | x < 4 * n ensures meta'[x] == ByteAt(n, valid, used, deg', x) {
      assert meta[x] == ByteAt(n, valid, used, deg, x);
      if x == f { SetDegreePacked(valid[f], used[f + 1], used[f + 2], used[f + 3], Digit(deg[f]), Digit(v)); }
    }
  }
}
