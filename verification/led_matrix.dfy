/**
 * The display engine of src/LedMatrix.c: the framebuffer and its drawing
 * surface, the constant tables of the scan-out, and one step of the
 * binary-coded-modulation (BCM) scan-out that the Timer0A interrupt runs.
 *
 * The hardware is abstracted away: a scan-out step returns the row-select
 * value, the 32 data-port words and the timer reload value it would write,
 * instead of writing registers.
 */
module LedMatrix {
  import opened Panel
  import opened GridArray

  /** Row-pair index to the value put on the four row-select lines. */
  const DemuxVals: seq<bv8> := [0, 1, 4, 5, 2, 3, 6, 7, 8, 9, 12, 13, 10, 11, 14, 15]

  /** Timer ticks each bit-plane stays lit, one entry per bit of a channel. */
  const BcmLength: seq<bv32> := [240, 480, 960, 1920, 3840, 7680, 15360, 30720]

  /** The last bit-plane shown: planes 0..6, so bit 7 of a channel is never shown. */
  const MaxBcm: nat := 6

  /** Number of row pairs: one select value drives row r and row r + 16. */
  const RowPairs: nat := MaxRows / 2

  /** Scan-out steps in one full refresh: RowPairs * (MaxBcm + 1). */
  const CycleLength: nat := 112

  /**
   * Plane 0 is lit for 240 ticks and each plane for twice as long as the one
   * before: the weights of binary-coded modulation.
   */
  lemma BcmLengthIsBinaryWeighted()
    ensures |BcmLength| == 8 && BcmLength[0] == 240
    ensures forall k :: 0 <= k < 7 ==> BcmLength[k + 1] as int == 2 * BcmLength[k] as int
  {
    forall k | 0 <= k < 7
      ensures BcmLength[k + 1] as int == 2 * BcmLength[k] as int
    {
      if k == 0 {
      } else if k == 1 {
      } else if k == 2 {
      } else if k == 3 {
      } else if k == 4 {
      } else if k == 5 {
      } else {
      }
    }
  }

  /** 2 to the power k. */
  function Pow2(k: nat): (p: nat)
    ensures p >= 1
  {
    if k == 0 then 1 else 2 * Pow2(k - 1)
  }

  /** Plane k is lit for 240 * 2^k ticks, so its weight is the weight of bit k. */
  lemma {:induction false} BcmLengthIsPow2(k: nat)
    requires k < |BcmLength|
    ensures BcmLength[k] as int == 240 * Pow2(k)
  {
    BcmLengthIsBinaryWeighted();
    if k > 0 {
      BcmLengthIsPow2(k - 1);
    }
  }

  /** Every select value fits the four row-select lines. */
  lemma DemuxInRange()
    ensures |DemuxVals| == RowPairs
    ensures forall i :: 0 <= i < 16 ==> DemuxVals[i] < 16
  {
  }

  /**
   * The select table is its own inverse on 0..15, so it is a permutation of
   * 0..15: every physical row pair is selected by exactly one logical row.
   */
  lemma DemuxIsInvolution()
    ensures forall i :: 0 <= i < 16 ==> DemuxVals[DemuxVals[i] as int] as int == i
  {
    DemuxInRange();
    forall i | 0 <= i < 16
      ensures DemuxVals[DemuxVals[i] as int] as int == i
    {
      if i < 8 {
        DemuxInvolutionLow(i);
      } else {
        DemuxInvolutionHigh(i);
      }
    }
  }

  lemma DemuxInvolutionLow(i: nat)
    requires i < 8
    ensures DemuxVals[i] < 16 && DemuxVals[DemuxVals[i] as int] as int == i
  {
    if i == 0 {
    } else if i == 1 {
    } else if i == 2 {
    } else if i == 3 {
    } else if i == 4 {
    } else if i == 5 {
    } else if i == 6 {
    } else {
    }
  }

  lemma DemuxInvolutionHigh(i: nat)
    requires 8 <= i < 16
    ensures DemuxVals[i] < 16 && DemuxVals[DemuxVals[i] as int] as int == i
  {
    if i == 8 {
    } else if i == 9 {
    } else if i == 10 {
    } else if i == 11 {
    } else if i == 12 {
    } else if i == 13 {
    } else if i == 14 {
    } else {
    }
  }

  /** No two logical rows select the same physical row pair. */
  lemma DemuxIsInjective()
    ensures forall i, j :: 0 <= i < j < 16 ==> DemuxVals[i] != DemuxVals[j]
  {
    DemuxIsInvolution();
    DemuxInRange();
    forall i, j | 0 <= i < j < 16
      ensures DemuxVals[i] != DemuxVals[j]
    {
      var a, b := DemuxVals[i], DemuxVals[j];
      assert DemuxVals[a as int] as int == i && DemuxVals[b as int] as int == j;
    }
  }

  // ---------------------------------------------------------------------------
  // Scan cursor: which row pair and which bit-plane the next step shows.

  datatype Cursor = Cursor(row: nat, plane: nat)

  const Origin := Cursor(0, 0)

  predicate ValidCursor(c: Cursor)
  {
    c.row < RowPairs && c.plane <= MaxBcm
  }

  /**
   * The cursor advance at the end of a scan-out step.  The wrap is written
   * with the literal 15, as the driver does; the contract states it in terms
   * of the panel height.
   */
  function NextCursor(c: Cursor): (n: Cursor)
    requires ValidCursor(c)
    ensures ValidCursor(n)
    ensures c.plane == MaxBcm ==> n == Cursor((c.row + 1) % RowPairs, 0)
    ensures c.plane < MaxBcm ==> n == Cursor(c.row, c.plane + 1)
  {
    if c.plane >= MaxBcm then
      Cursor(if c.row == 15 then 0 else c.row + 1, 0)
    else
      Cursor(c.row, c.plane + 1)
  }

  /**
   * Position of a cursor in the refresh order: row pair major, plane minor,
   * MaxBcm + 1 = 7 planes per row pair.
   */
  function CursorIndex(c: Cursor): nat
  {
    c.row * 7 + c.plane
  }

  /** The cursor at a position of the refresh order; the inverse of CursorIndex. */
  function CursorAt(i: nat): (c: Cursor)
    requires i < CycleLength
    ensures ValidCursor(c) && CursorIndex(c) == i
  {
    Cursor(i / 7, i % 7)
  }

  lemma CursorAtIndex(c: Cursor)
    requires ValidCursor(c)
    ensures CursorIndex(c) < CycleLength && CursorAt(CursorIndex(c)) == c
  {
  }

  /** One step moves one place along the refresh order, wrapping after the last. */
  lemma NextCursorIndex(c: Cursor)
    requires ValidCursor(c)
    ensures CursorIndex(NextCursor(c)) == if CursorIndex(c) + 1 == CycleLength then 0 else CursorIndex(c) + 1
  {
  }

  /** The cursor after k scan-out steps. */
  function Advance(c: Cursor, k: nat): (r: Cursor)
    requires ValidCursor(c)
    ensures ValidCursor(r)
    decreases k
  {
    if k == 0 then c else Advance(NextCursor(c), k - 1)
  }

  /** Within one refresh, k steps move k places along the refresh order. */
  lemma {:induction false} AdvanceIndex(c: Cursor, k: nat)
    requires ValidCursor(c) && CursorIndex(c) + k < CycleLength
    ensures CursorIndex(Advance(c, k)) == CursorIndex(c) + k
    decreases k
  {
    if k > 0 {
      var n := NextCursor(c);
      NextCursorIndex(c);
      assert CursorIndex(n) == CursorIndex(c) + 1;
      AdvanceIndex(n, k - 1);
      assert Advance(c, k) == Advance(n, k - 1);
    }
  }

  lemma {:induction false} AdvanceAdd(c: Cursor, a: nat, b: nat)
    requires ValidCursor(c)
    ensures Advance(c, a + b) == Advance(Advance(c, a), b)
    decreases a
  {
    if a > 0 {
      AdvanceAdd(NextCursor(c), a - 1, b);
    }
  }

  lemma CycleLengthCounts()
    ensures CycleLength == RowPairs * (MaxBcm + 1)
  {
    assert RowPairs == 16 && MaxBcm + 1 == 7;
  }

  /** From (0, 0), step k of a refresh shows the cursor at position k. */
  lemma ScanOrder()
    ensures forall k :: 0 <= k < CycleLength ==> Advance(Origin, k) == CursorAt(k)
  {
    forall k | 0 <= k < CycleLength
      ensures Advance(Origin, k) == CursorAt(k)
    {
      AdvanceIndex(Origin, k);
      CursorAtIndex(Advance(Origin, k));
    }
  }

  /**
   * One refresh from (0, 0) shows every (row pair, plane) exactly once:
   * each valid cursor is reached, at its own position, and no two steps of
   * the refresh show the same one.
   */
  lemma ScanVisitsEach()
    ensures forall c :: ValidCursor(c) ==> Advance(Origin, CursorIndex(c)) == c
    ensures forall j, k :: 0 <= j < k < CycleLength ==> Advance(Origin, j) != Advance(Origin, k)
  {
    ScanOrder();
    forall c | ValidCursor(c)
      ensures Advance(Origin, CursorIndex(c)) == c
    {
      CursorAtIndex(c);
    }
  }

  /** After CycleLength steps the scan-out is back at (0, 0). */
  lemma ScanReturns()
    ensures Advance(Origin, CycleLength) == Origin
  {
    var last := Advance(Origin, CycleLength - 1);
    AdvanceIndex(Origin, CycleLength - 1);
    CursorAtIndex(last);
    assert last == Cursor(15, 6);
    assert NextCursor(last) == Origin;
    AdvanceAdd(Origin, CycleLength - 1, 1);
  }

  /**
   * One row pair takes MaxBcm + 1 = 7 consecutive steps, showing planes
   * 0..6 in order, after which the next row pair (wrapping after the last)
   * starts at plane 0.
   */
  lemma RowPairPass(r: nat)
    requires r < RowPairs
    ensures forall k :: 0 <= k <= MaxBcm ==> Advance(Cursor(r, 0), k) == Cursor(r, k)
    ensures Advance(Cursor(r, 0), MaxBcm + 1) == Cursor((r + 1) % RowPairs, 0)
  {
    var c := Cursor(r, 0);
    forall k | 0 <= k <= MaxBcm
      ensures Advance(c, k) == Cursor(r, k)
    {
      AdvanceIndex(c, k);
      CursorAtIndex(Advance(c, k));
      CursorAtIndex(Cursor(r, k));
    }
    AdvanceAdd(c, MaxBcm, 1);
  }

  // ---------------------------------------------------------------------------
  // The data-port word for one column.

  /** A bit position in an 8-bit channel: the bit-plane a scan-out step shows. */
  type Plane = bv3

  /** `(v >> plane) & 1`: bit `plane` of one channel, as a 0/1 port value. */
  function PlaneBit(v: bv8, plane: Plane): (b: bv32)
    ensures b == 0 || b == 1
  {
    ((v >> plane) & 1) as bv32
  }

  /** The six colour bits of one column placed on their data pins. */
  function PackWord(r0: bv32, g0: bv32, b0: bv32, r1: bv32, g1: bv32, b1: bv32): bv32
  {
    (r0 << R0S) | (g0 << G0S) | (b0 << B0S) | (r1 << R1S) | (g1 << G1S) | (b1 << B1S)
  }

  /**
   * The word put on the data port for one column: bit `plane` of each
   * channel of the upper row on R0/G0/B0 and of the lower row on R1/G1/B1,
   * every other bit 0.
   */
  function DataWord(upper: Color, lower: Color, plane: Plane): (w: bv32)
    ensures WordBit(w, R0S) == PlaneBit(upper.r, plane)
    ensures WordBit(w, G0S) == PlaneBit(upper.g, plane)
    ensures WordBit(w, B0S) == PlaneBit(upper.b, plane)
    ensures WordBit(w, R1S) == PlaneBit(lower.r, plane)
    ensures WordBit(w, G1S) == PlaneBit(lower.g, plane)
    ensures WordBit(w, B1S) == PlaneBit(lower.b, plane)
    ensures w & !AllDataPortPins == 0
  {
    PackWord(PlaneBit(upper.r, plane), PlaneBit(upper.g, plane), PlaneBit(upper.b, plane),
             PlaneBit(lower.r, plane), PlaneBit(lower.g, plane), PlaneBit(lower.b, plane))
  }

  /** A colour with the top bit of each channel cleared. */
  function Low7(c: Color): Color
  {
    Color(c.r & 0x7F, c.g & 0x7F, c.b & 0x7F)
  }

  lemma PlaneBitIgnoresTop(v: bv8, plane: Plane)
    requires plane as int <= MaxBcm
    ensures PlaneBit(v & 0x7F, plane) == PlaneBit(v, plane)
  {
  }

  /**
   * Because MaxBcm is 6, the top bit of every channel never reaches the
   * panel: every word a scan-out step can produce is the same with it cleared.
   */
  lemma TopBitNeverShown(upper: Color, lower: Color, plane: Plane)
    requires plane as int <= MaxBcm
    ensures DataWord(upper, lower, plane) == DataWord(Low7(upper), Low7(lower), plane)
  {
    PlaneBitIgnoresTop(upper.r, plane);
    PlaneBitIgnoresTop(upper.g, plane);
    PlaneBitIgnoresTop(upper.b, plane);
    PlaneBitIgnoresTop(lower.r, plane);
    PlaneBitIgnoresTop(lower.g, plane);
    PlaneBitIgnoresTop(lower.b, plane);
  }

  /** Ticks a channel value is lit over one pass of planes 0..MaxBcm. */
  function OnTime(v: bv8): bv32
  {
    PlaneBit(v, 0) * BcmLength[0] + PlaneBit(v, 1) * BcmLength[1] + PlaneBit(v, 2) * BcmLength[2] +
    PlaneBit(v, 3) * BcmLength[3] + PlaneBit(v, 4) * BcmLength[4] + PlaneBit(v, 5) * BcmLength[5] +
    PlaneBit(v, 6) * BcmLength[6]
  }

  /**
   * Binary-coded modulation: over one pass of planes 0..MaxBcm a channel of
   * value v is lit for 240 * (v mod 128) ticks, proportional to its
   * intensity with the top bit dropped.
   */
  lemma OnTimeIsProportional(v: bv8)
    ensures OnTime(v) == 240 * ((v & 0x7F) as bv32)
  {
  }

  // ---------------------------------------------------------------------------
  // The display: framebuffer, draw colour and scan cursor.

  class Display {
    /** The framebuffer, indexed [row, column]. */
    const matrix: array2<Color>
    var curDrawColor: Color
    var curRow: nat
    var curBcmCycle: nat

    /** The framebuffer has the panel's size; all the drawing calls need. */
    ghost predicate Shaped()
    {
      matrix.Length0 == MaxRows && matrix.Length1 == MaxCols
    }

    /** Shaped, and the scan cursor is on the panel. */
    ghost predicate Valid()
      reads this`curRow, this`curBcmCycle
    {
      Shaped() && ValidCursor(Cursor(curRow, curBcmCycle))
    }

    function ScanCursor(): Cursor
      reads this`curRow, this`curBcmCycle
    {
      Cursor(curRow, curBcmCycle)
    }

    /** Static storage: every cell, the draw colour and the cursor start at zero. */
    constructor ()
      ensures Valid() && fresh(matrix)
      ensures forall i, j :: 0 <= i < MaxRows && 0 <= j < MaxCols ==> matrix[i, j] == Black
      ensures curDrawColor == Black && ScanCursor() == Origin
    {
      matrix := new Color[MaxRows, MaxCols]((i, j) => Black);
      curDrawColor := Black;
      curRow, curBcmCycle := 0, 0;
    }

    /** Any three intensities are accepted; the framebuffer is not touched. */
    method SetColor(r: bv8, g: bv8, b: bv8)
      modifies this`curDrawColor
      ensures curDrawColor == Color(r, g, b)
    {
      curDrawColor := Color(r, g, b);
    }

    /** Every cell becomes (0, 0, 0), whatever it held (a bulk zero of the storage). */
    method ClearMatrix()
      requires Shaped()
      modifies matrix
      ensures forall i, j :: 0 <= i < MaxRows && 0 <= j < MaxCols ==> matrix[i, j] == Black
    {
      forall i, j | 0 <= i < MaxRows && 0 <= j < MaxCols {
        matrix[i, j] := Black;
      }
    }

    /** Every cell becomes the draw colour; the draw colour itself is unchanged. */
    method DrawSolidColor()
      requires Shaped()
      modifies matrix
      ensures forall i, j :: 0 <= i < MaxRows && 0 <= j < MaxCols ==> matrix[i, j] == curDrawColor
    {
      for row := 0 to MaxRows
        invariant forall i, j :: 0 <= i < row && 0 <= j < MaxCols ==> matrix[i, j] == curDrawColor
      {
        for col := 0 to MaxCols
          invariant forall i, j :: 0 <= i < row && 0 <= j < MaxCols ==> matrix[i, j] == curDrawColor
          invariant forall j :: 0 <= j < col ==> matrix[row, j] == curDrawColor
        {
          matrix[row, col] := curDrawColor;
        }
      }
    }

    /**
     * Cells (rownum, startcol .. startcol + length - 1) become the draw
     * colour and no other cell changes.  The run must stay on the panel;
     * a run of length 0 touches nothing and needs no bound.
     */
    method DrawRowLine(rownum: Byte, startcol: Byte, length: Byte)
      requires Shaped()
      requires length > 0 ==> rownum < MaxRows && startcol + length <= MaxCols
      modifies matrix
      ensures forall i, j :: 0 <= i < MaxRows && 0 <= j < MaxCols ==>
        matrix[i, j] == if i == rownum && startcol <= j < startcol + length then curDrawColor else old(matrix[i, j])
    {
      for curcol := 0 to length
        invariant forall i, j :: 0 <= i < MaxRows && 0 <= j < MaxCols ==>
          matrix[i, j] == if i == rownum && startcol <= j < startcol + curcol then curDrawColor else old(matrix[i, j])
      {
        matrix[rownum, startcol + curcol] := curDrawColor;
      }
    }

    /**
     * Cells (startrow .. startrow + length - 1, colnum) become the draw
     * colour and no other cell changes.
     */
    method DrawColumnLine(colnum: Byte, startrow: Byte, length: Byte)
      requires Shaped()
      requires length > 0 ==> colnum < MaxCols && startrow + length <= MaxRows
      modifies matrix
      ensures forall i, j :: 0 <= i < MaxRows && 0 <= j < MaxCols ==>
        matrix[i, j] == if j == colnum && startrow <= i < startrow + length then curDrawColor else old(matrix[i, j])
    {
      for currow := 0 to length
        invariant forall i, j :: 0 <= i < MaxRows && 0 <= j < MaxCols ==>
          matrix[i, j] == if j == colnum && startrow <= i < startrow + currow then curDrawColor else old(matrix[i, j])
      {
        matrix[startrow + currow, colnum] := curDrawColor;
      }
    }

    /** Cell (rownum, colnum) becomes the draw colour and no other cell changes. */
    method DrawPixel(rownum: Byte, colnum: Byte)
      requires Shaped()
      requires rownum < MaxRows && colnum < MaxCols
      modifies matrix
      ensures forall i, j :: 0 <= i < MaxRows && 0 <= j < MaxCols ==>
        matrix[i, j] == if i == rownum && j == colnum then curDrawColor else old(matrix[i, j])
    {
      matrix[rownum, colnum] := curDrawColor;
    }

    /**
     * A stencil: a cell whose grid bit is 1 becomes the draw colour, a cell
     * whose bit is 0 keeps what it held.
     */
    method DrawGridArray(grid: seq<bv32>)
      requires Shaped() && IsGrid(grid)
      modifies matrix
      ensures forall i, j :: 0 <= i < MaxRows && 0 <= j < MaxCols ==>
        matrix[i, j] == if GetBit(grid, i, j as BitIndex) == 1 then curDrawColor else old(matrix[i, j])
    {
      for row := 0 to MaxRows
        invariant forall i, j :: 0 <= i < MaxRows && 0 <= j < MaxCols ==>
          matrix[i, j] == if i < row && GetBit(grid, i, j as BitIndex) == 1 then curDrawColor else old(matrix[i, j])
      {
        for col := 0 to MaxCols
          invariant forall i, j :: 0 <= i < MaxRows && 0 <= j < MaxCols ==>
            matrix[i, j] ==
              if (i < row || (i == row && j < col)) && GetBit(grid, i, j as BitIndex) == 1 then curDrawColor
              else old(matrix[i, j])
        {
          if GetBit(grid, row, col as BitIndex) == 1 {
            matrix[row, col] := curDrawColor;
          }
        }
      }
    }

    /**
     * One run of the Timer0A interrupt without the register traffic.  It
     * returns the value put on the row-select lines, the data-port word
     * shifted out for each of the 32 columns (in column order) and the timer
     * reload value, all for the cursor it starts at, and then advances the
     * cursor.  The framebuffer and the draw colour are only read.
     */
    method ScanOutStep() returns (select: bv32, words: seq<bv32>, reload: bv32)
      requires Valid()
      modifies this`curRow, this`curBcmCycle
      ensures Valid()
      ensures select == DemuxVals[old(curRow)] as bv32 && select & !DemuxPins == 0
      ensures |words| == MaxCols
      ensures forall i :: 0 <= i < MaxCols ==>
        words[i] == DataWord(matrix[old(curRow), i], matrix[old(curRow) + RowPairs, i], old(curBcmCycle) as Plane)
      ensures reload == BcmLength[old(curBcmCycle)]
      ensures ScanCursor() == NextCursor(old(ScanCursor()))
    {
      var curRowOther := curRow + 16;
      DemuxInRange();
      select := (DemuxVals[curRow] & 0xF) as bv32;
      words := [];
      for i := 0 to 32
        invariant |words| == i
        invariant forall k :: 0 <= k < i ==>
          words[k] == DataWord(matrix[curRow, k], matrix[curRowOther, k], curBcmCycle as Plane)
      {
        words := words + [DataWord(matrix[curRow, i], matrix[curRowOther, i], curBcmCycle as Plane)];
      }
      reload := BcmLength[curBcmCycle];
      if curBcmCycle >= MaxBcm {
        if curRow == 15 {
          curRow := 0;
        } else {
          curRow := curRow + 1;
        }
        curBcmCycle := 0;
      } else {
        curBcmCycle := curBcmCycle + 1;
      }
    }
  }
}
