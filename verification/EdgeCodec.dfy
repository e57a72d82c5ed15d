/** Half-edges coded in 64 bits: the complements of the two ids, source above sink. */
module EdgeCodec {

  function MakeEdge(x: bv32, y: bv32): (e: bv64) {
    ((!x) as bv64 << 32) | ((!y) as bv64)
  }

  function EdgeSource(e: bv64): (x: bv32) {
    (((!e) >> 32) & 0xffff_ffff) as bv32
  }

  /** Only 31 bits of the sink come back. */
  function EdgeSink(e: bv64): (y: bv32) {
    ((!e) & 0x7fff_ffff) as bv32
  }

  function EdgeInverse(e: bv64): (r: bv64) {
    (e >> 32) | (e << 32)
  }

  lemma SourceOfEdge(x: bv32, y: bv32)
    ensures EdgeSource(MakeEdge(x, y)) == x
  {
  }

  /** The sink comes back exactly for ids below 2^31. */
  lemma SinkOfEdge(x: bv32, y: bv32)
    ensures EdgeSink(MakeEdge(x, y)) == y <==> y & 0x8000_0000 == 0
  {
  }

  lemma InverseOfEdge(x: bv32, y: bv32)
    ensures EdgeInverse(MakeEdge(x, y)) == MakeEdge(y, x)
  {
  }

  /** Codes identify edges, for all ids: read forwards and backwards they give both ends. */
  lemma BothEndsBack(x: bv32, y: bv32)
    ensures EdgeSource(MakeEdge(x, y)) == x && EdgeSource(EdgeInverse(MakeEdge(x, y))) == y
  {
    hide MakeEdge, EdgeSource, EdgeInverse;
    SourceOfEdge(x, y);
    SourceOfEdge(y, x);
    InverseOfEdge(x, y);
  }
}
