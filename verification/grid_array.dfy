/**
 * The one-bit-per-pixel grid of inc/LedMatrix.h: 32 rows, each packed into
 * one 32-bit word, bit `col` of word `row` standing for cell (row, col);
 * and the GET/SET/CLEAR_GRIDARRAY_BIT macros acting on it.
 *
 * Words are `bv32`.  SET and CLEAR build their mask as `1 << col` on a C
 * `int`; for col = 31 that is signed overflow, modelled here as the
 * two's-complement value 0x80000000 that the compiler produces.
 */
module GridArray {
  import opened Panel

  /** A grid as a value: one packed word per row. */
  predicate IsGrid(g: seq<bv32>)
  {
    |g| == MaxRows
  }

  /** `(w >> col) & 1`: bit `col` of a packed word, 0 or 1. */
  function WordBit(w: bv32, col: BitIndex): (b: bv32)
    ensures b == 0 || b == 1
  {
    (w >> col) & 1
  }

  /** `w | (1 << col)`: bit `col` becomes 1, every other bit is kept. */
  function SetWordBit(w: bv32, col: BitIndex): (r: bv32)
    ensures forall c: BitIndex :: WordBit(r, c) == if c == col then 1 else WordBit(w, c)
  {
    SetWordBitAt(w, col);
    w | (1 << col)
  }

  /**
   * `w & ~(1 << col)`: bit `col` becomes 0, every other bit is kept.
   * The value is computed as "set the bit, then flip it", which
   * ClearIsSetThenFlip shows is the same word; the solver reasons about
   * that form far more cheaply under a variable shift.
   */
  function ClearWordBit(w: bv32, col: BitIndex): (r: bv32)
    ensures r == w & !(1 << col)
    ensures forall c: BitIndex :: WordBit(r, c) == if c == col then 0 else WordBit(w, c)
  {
    ClearIsSetThenFlip(w, 1 << col);
    ClearWordBitAt(w, col);
    (w | (1 << col)) ^ (1 << col)
  }

  lemma SetWordBitAt(w: bv32, col: BitIndex)
    ensures forall c: BitIndex :: WordBit(w | (1 << col), c) == if c == col then 1 else WordBit(w, c)
  {
    forall c: BitIndex
      ensures WordBit(w | (1 << col), c) == if c == col then 1 else WordBit(w, c)
    {
      SetBitOf(w, col, c);
    }
  }

  lemma SetBitOf(w: bv32, col: BitIndex, c: BitIndex)
    ensures ((w | (1 << col)) >> c) & 1 == if c == col then 1 else (w >> c) & 1
  {
  }

  lemma ClearWordBitAt(w: bv32, col: BitIndex)
    ensures forall c: BitIndex :: WordBit((w | (1 << col)) ^ (1 << col), c) == if c == col then 0 else WordBit(w, c)
  {
    forall c: BitIndex
      ensures WordBit((w | (1 << col)) ^ (1 << col), c) == if c == col then 0 else WordBit(w, c)
    {
      SetThenFlipBitOf(w, col, c);
    }
  }

  lemma SetThenFlipBitOf(w: bv32, col: BitIndex, c: BitIndex)
    ensures (((w | (1 << col)) ^ (1 << col)) >> c) & 1 == if c == col then 0 else (w >> c) & 1
  {
  }

  /** Clearing the bits of a mask is setting them and then flipping them. */
  lemma ClearIsSetThenFlip(w: bv32, m: bv32)
    ensures w & !m == (w | m) ^ m
  {
  }

  // The word-level algebra of SET and CLEAR on one bit.

  lemma SetWordIdempotent(w: bv32, col: BitIndex)
    ensures SetWordBit(SetWordBit(w, col), col) == SetWordBit(w, col)
  {
    MaskLaws(w, 1 << col);
  }

  lemma ClearWordIdempotent(w: bv32, col: BitIndex)
    ensures ClearWordBit(ClearWordBit(w, col), col) == ClearWordBit(w, col)
  {
    MaskLaws(w, 1 << col);
  }

  lemma ClearWordAfterSet(w: bv32, col: BitIndex)
    ensures ClearWordBit(SetWordBit(w, col), col) == ClearWordBit(w, col)
  {
    MaskLaws(w, 1 << col);
  }

  lemma MaskLaws(w: bv32, m: bv32)
    ensures (w | m) | m == w | m
    ensures (((w | m) ^ m) | m) ^ m == (w | m) ^ m
  {
  }

  /** GET_GRIDARRAY_BIT: the bit of cell (row, col), always 0 or 1. */
  function GetBit(g: seq<bv32>, row: nat, col: BitIndex): (b: bv32)
    requires IsGrid(g) && row < MaxRows
    ensures b == 0 || b == 1
  {
    WordBit(g[row], col)
  }

  /** The grid after SET_GRIDARRAY_BIT(g, row, col). */
  function SetBit(g: seq<bv32>, row: nat, col: BitIndex): (r: seq<bv32>)
    requires IsGrid(g) && row < MaxRows
    ensures IsGrid(r)
    ensures forall i: nat, j: BitIndex :: i < MaxRows ==>
      GetBit(r, i, j) == if i == row && j == col then 1 else GetBit(g, i, j)
  {
    g[row := SetWordBit(g[row], col)]
  }

  /** The grid after CLEAR_GRIDARRAY_BIT(g, row, col). */
  function ClearBit(g: seq<bv32>, row: nat, col: BitIndex): (r: seq<bv32>)
    requires IsGrid(g) && row < MaxRows
    ensures IsGrid(r)
    ensures forall i: nat, j: BitIndex :: i < MaxRows ==>
      GetBit(r, i, j) == if i == row && j == col then 0 else GetBit(g, i, j)
  {
    g[row := ClearWordBit(g[row], col)]
  }

  /** The macros in place: `array[row] |= 1 << col`. */
  method SetGridArrayBit(a: array<bv32>, row: nat, col: BitIndex)
    requires a.Length == MaxRows && row < MaxRows
    modifies a
    ensures a[..] == SetBit(old(a[..]), row, col)
  {
    a[row] := a[row] | (1 << col);
  }

  /** `array[row] &= ~(1 << col)`. */
  method ClearGridArrayBit(a: array<bv32>, row: nat, col: BitIndex)
    requires a.Length == MaxRows && row < MaxRows
    modifies a
    ensures a[..] == ClearBit(old(a[..]), row, col)
  {
    a[row] := a[row] & !(1 << col);
  }

  /** Setting a bit twice is setting it once. */
  lemma SetIdempotent(g: seq<bv32>, row: nat, col: BitIndex)
    requires IsGrid(g) && row < MaxRows
    ensures SetBit(SetBit(g, row, col), row, col) == SetBit(g, row, col)
  {
    SetWordIdempotent(g[row], col);
  }

  /** Clearing a bit twice is clearing it once. */
  lemma ClearIdempotent(g: seq<bv32>, row: nat, col: BitIndex)
    requires IsGrid(g) && row < MaxRows
    ensures ClearBit(ClearBit(g, row, col), row, col) == ClearBit(g, row, col)
  {
    ClearWordIdempotent(g[row], col);
  }

  /**
   * SET followed by CLEAR on the same bit leaves that bit 0 and is the same
   * as CLEAR alone: the whole grid equals the one CLEAR makes of the original.
   */
  lemma ClearAfterSet(g: seq<bv32>, row: nat, col: BitIndex)
    requires IsGrid(g) && row < MaxRows
    ensures GetBit(ClearBit(SetBit(g, row, col), row, col), row, col) == 0
    ensures ClearBit(SetBit(g, row, col), row, col) == ClearBit(g, row, col)
  {
    ClearWordAfterSet(g[row], col);
  }

  /** Clearing never adds a 1 bit: the set of 1 cells only shrinks. */
  lemma ClearBitShrinks(g: seq<bv32>, row: nat, col: BitIndex)
    requires IsGrid(g) && row < MaxRows
    ensures forall i: nat, j: BitIndex :: i < MaxRows && GetBit(ClearBit(g, row, col), i, j) == 1 ==>
      GetBit(g, i, j) == 1
  {
  }
}
