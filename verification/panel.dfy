/**
 * Geometry, pixel colour and GPIO pin layout of the 32x32 RGB LED matrix
 * (inc/LedMatrix.h).
 *
 * The panel has two colour line sets: R0/G0/B0 drive the upper half of the
 * panel, R1/G1/B1 the lower half.  Both sets sit on the data port (GPIO
 * port A); the four row-select lines of the demultiplexer, the shift clock,
 * the output enable and the latch sit on the control port (GPIO port B).
 * The pin masks below are the header's defines, not its pin-map comment,
 * which names OE and LATCH the other way round.
 */
module Panel {

  /** Panel size. */
  const MaxRows: nat := 32
  const MaxCols: nat := 32

  /** The C `uint8_t` used for coordinates and lengths. */
  type Byte = x: int | 0 <= x < 256

  /** One pixel: three independent 8-bit intensities, no alpha. */
  datatype Color = Color(r: bv8, g: bv8, b: bv8)

  /** The zero colour, every LED off. */
  const Black := Color(0, 0, 0)

  // Data-port pin masks.
  const R0: bv32 := 0x4
  const B0: bv32 := 0x8
  const G0: bv32 := 0x10
  const R1: bv32 := 0x20
  const B1: bv32 := 0x40
  const G1: bv32 := 0x80

  /**
   * A bit position in a 32-bit port or row word.  Every value is a shift
   * amount C may use on a 32-bit word; callers holding an integer convert it
   * with `as BitIndex`, which Dafny checks to lie in 0..31.
   */
  type BitIndex = bv5

  // Bit numbers of the data pins, used to shift a 0/1 value onto its pin.
  const R0S: BitIndex := 2
  const B0S: BitIndex := 3
  const G0S: BitIndex := 4
  const R1S: BitIndex := 5
  const B1S: BitIndex := 6
  const G1S: BitIndex := 7

  // Control-port pin masks.
  const DemuxA: bv32 := 0x1
  const DemuxB: bv32 := 0x2
  const DemuxC: bv32 := 0x4
  const DemuxD: bv32 := 0x8
  const Sclk: bv32 := 0x10
  const OE: bv32 := 0x20
  const Latch: bv32 := 0x40

  const AllDataPortPins: bv32 := R0 | G0 | B0 | R1 | G1 | B1
  const AllCtrlPortPins: bv32 := DemuxA | DemuxB | DemuxC | DemuxD | Sclk | Latch | OE

  /** The four row-select lines together. */
  const DemuxPins: bv32 := DemuxA | DemuxB | DemuxC | DemuxD

  /** No two masks of `ms` share a bit. */
  predicate PairwiseDisjoint(ms: seq<bv32>)
  {
    forall i, j :: 0 <= i < j < |ms| ==> ms[i] & ms[j] == 0
  }

  /** Every data mask is exactly the bit its shift constant names. */
  lemma DataMasksMatchShifts()
    ensures R0 == 1 << R0S && B0 == 1 << B0S && G0 == 1 << G0S
    ensures R1 == 1 << R1S && B1 == 1 << B1S && G1 == 1 << G1S
  {
  }

  /** The six data pins are distinct bits and together occupy bits 2..7. */
  lemma DataMasksDisjoint()
    ensures PairwiseDisjoint([R0, B0, G0, R1, B1, G1])
    ensures AllDataPortPins == 0xFC
  {
  }

  /**
   * The seven control pins are distinct bits inside bits 0..6, and the
   * row-select lines are exactly the low nibble.
   */
  lemma ControlMasksLayout()
    ensures PairwiseDisjoint([DemuxA, DemuxB, DemuxC, DemuxD, Sclk, OE, Latch])
    ensures AllCtrlPortPins & !0x7F == 0
    ensures DemuxPins == 0xF
  {
  }
}
