/** The 32-bit word of a voxel: six direction bits, a count-me bit, and on top the visited bit, below which the label is
    put in the end. What the fill does to the packed words is what the model does to the words it reasons about. */
module VoxelCodec {
  import F = FloodFill
  import V = VoxelEdges

  const VISITED: bv32 := 0x8000_0000
  const CLEAR: bv32 := 0x7fff_ffff
  const COUNTED: bv32 := 0x80
  const UNUSED: bv32 := 0x7fff_ff40

  /** The bits a mark may have: directions 0 to 5, and count me. */
  predicate IsMark(m: bv32) {
    m == 1 || m == 2 || m == 4 || m == 8 || m == 16 || m == 32 || m == COUNTED
  }

  /** The bit of direction z. */
  function Direction(z: nat): (m: bv32)
    ensures IsMark(m) && m != COUNTED
  {
    if z == 0 then 1 else if z == 1 then 2 else if z == 2 then 4 else if z == 3 then 8 else if z == 4 then 16 else 32
  }

  function Has(w: bv32, m: bv32): (r: bool) {
    w & m != 0
  }

  function Set(w: bv32, m: bv32): (r: bv32) {
    w | m
  }

  function Visit(w: bv32): (r: bv32) {
    w | VISITED
  }

  function Visited(w: bv32): (r: bool) {
    w & VISITED != 0
  }

  function Clear(w: bv32): (r: bv32) {
    w & CLEAR
  }

  /** The bits say what the word says. */
  ghost predicate Packs(w: bv32, word: F.Word) {
    match word
    case Marks(dirs, counted, visited) =>
      && (forall z: nat {:trigger Direction(z)} | z < 6 :: Has(w, Direction(z)) <==> z in dirs) && (forall z | z in dirs :: z < 6)
      && (Has(w, COUNTED) <==> counted) && (Visited(w) <==> visited) && w & UNUSED == 0
    case Label(id) =>
      Visited(w) && Clear(w) as nat == id
  }

  lemma DirectionsDiffer(z: nat, y: nat)
    requires z < 6 && y < 6
    ensures Direction(z) == Direction(y) <==> z == y
  {
  }

  /** Setting a bit sets that one alone. */
  lemma SetOne(w: bv32, m: bv32, k: bv32)
    requires IsMark(m) && IsMark(k)
    ensures Has(Set(w, m), k) <==> Has(w, k) || k == m
    ensures Visited(Set(w, m)) == Visited(w) && Set(w, m) & UNUSED == w & UNUSED
  {
  }

  /** Marking a direction. */
  lemma MarkPacked(w: bv32, word: F.Word, z: nat)
    requires Packs(w, word) && word.Marks? && z < 6
    ensures Packs(Set(w, Direction(z)), V.Mark(word, z))
  {
    hide Direction, Has, Set, Visited, IsMark;
    Counted();
    SetOne(w, Direction(z), COUNTED);
    forall y: nat | y < 6 ensures Has(Set(w, Direction(z)), Direction(y)) <==> y in word.dirs || y == z {
      SetOne(w, Direction(z), Direction(y));
      DirectionsDiffer(z, y);
    }
  }

  lemma Counted()
    ensures IsMark(COUNTED)
  {
  }

  /** Marking a voxel to be counted. */
  lemma CountPacked(w: bv32, word: F.Word)
    requires Packs(w, word) && word.Marks?
    ensures Packs(Set(w, COUNTED), V.CountMe(word))
  {
    hide Direction, Has, Set, Visited, IsMark;
    Counted();
    SetOne(w, COUNTED, COUNTED);
    forall y: nat | y < 6 ensures Has(Set(w, COUNTED), Direction(y)) == Has(w, Direction(y)) {
      SetOne(w, COUNTED, Direction(y));
    }
  }

  lemma VisitOnly(w: bv32, k: bv32)
    requires IsMark(k)
    ensures Has(Visit(w), k) == Has(w, k)
  {
    assert k & VISITED == 0;
    assert Visit(w) & k == w & k;
  }

  lemma VisitSees(w: bv32)
    ensures Visited(Visit(w))
  {
  }

  lemma VisitUnused(w: bv32)
    ensures Visit(w) & UNUSED == w & UNUSED
  {
  }

  lemma VisitLabel(w: bv32)
    ensures Clear(Visit(w)) == Clear(w)
  {
  }

  /** Setting the visited bit. */
  lemma VisitPacked(w: bv32, word: F.Word)
    requires Packs(w, word)
    ensures Packs(Visit(w), F.Visit(word))
  {
    hide Direction, Has, Visited, Visit, Clear, IsMark;
    Counted();
    VisitSees(w);
    VisitUnused(w);
    VisitLabel(w);
    VisitOnly(w, COUNTED);
    forall y: nat | y < 6 ensures Has(Visit(w), Direction(y)) == Has(w, Direction(y)) { VisitOnly(w, Direction(y)); }
  }

  /** The two tests that start a fill. */
  lemma TestsPacked(w: bv32, word: F.Word)
    requires Packs(w, word)
    ensures Visited(w) == F.Visited(word) && (word.Marks? ==> (w == 0 <==> F.Empty(word)))
  {
    if word.Marks? {
      assert forall z: nat | z < 6 :: Has(w, Direction(z)) <==> z in word.dirs;
      if w == 0 {
        assert forall z: nat | z < 6 :: !Has(w, Direction(z));
        assert word.dirs == {};
      } else if F.Empty(word) {
        NothingSet(w);
      }
    }
  }

  lemma NothingSet(w: bv32)
    requires w & UNUSED == 0 && !Visited(w) && !Has(w, COUNTED) && forall z: nat {:trigger Direction(z)} | z < 6 :: !Has(w, Direction(z))
    ensures w == 0
  {
    assert !Has(w, Direction(0)) && !Has(w, Direction(1)) && !Has(w, Direction(2));
    assert !Has(w, Direction(3)) && !Has(w, Direction(4)) && !Has(w, Direction(5));
  }

  /** A label below the visited bit comes back; and it is never mistaken for a word not visited. */
  lemma LabelBack(l: bv32)
    requires l <= CLEAR
    ensures Visited(VISITED | l) && Clear(VISITED | l) == l && Packs(VISITED | l, F.Label(l as nat))
  {
  }

  /** Clearing the visited bit in the end gives the label, or zero where there was nothing. */
  lemma ClearPacked(w: bv32, word: F.Word)
    requires Packs(w, word) && (word.Label? || F.Empty(word))
    ensures Clear(w) as nat == F.Clear(word)
  {
    TestsPacked(w, word);
  }
}
