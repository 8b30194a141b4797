# LED matrix display engine and Pac-Man game, in Dafny

This project models the display engine of a 32x32 RGB LED matrix driven by a
microcontroller, and the small Pac-Man game that runs on it.

The display keeps a framebuffer of 32x32 pixels. Each pixel has three 8-bit
intensities. Drawing calls paint the framebuffer with a current draw colour.
A self-rescheduling timer interrupt scans the framebuffer out to the panel.
Each run of that interrupt shows one bit-plane of one row pair. Rows r and
r + 16 are driven together through one row-select value. Each plane stays lit
for a time proportional to its bit weight; this is binary-coded modulation
(BCM). The game keeps a one-bit-per-cell wall grid and a pellet grid. It reads
steering keys from a UART and moves Pac-Man on every game tick. Each tick it
redraws the whole frame.

Files, one module each:

- `panel.dfy` (`Panel`): panel size, the `Color` type, the GPIO pin masks and
  shift constants, and lemmas about their layout.
- `grid_array.dfy` (`GridArray`): the one-bit-per-cell grid and its
  GET/SET/CLEAR macros. Words are `bv32`. The macros are modelled both as
  functions on values and as in-place methods on an `array<bv32>`.
- `led_matrix.dfy` (`LedMatrix`): the select and BCM tables, the scan cursor
  and its refresh order, the data-port word of one column, and the `Display`
  class. `Display` holds the framebuffer (`array2<Color>`), the draw colour
  and the cursor. Its methods are the drawing calls and one scan-out step.
- `pacman.dfy` (`Pacman`): directions, the key map, the movement function and
  its properties, the shipped level and pellets, and the `Game` class with
  the UART and Timer1 interrupts.

A scan-out step returns the values it would write to hardware. These are the
row-select value, the 32 data-port words in column order, and the timer
reload value. The UART interrupt takes the receive flag and the received byte
as parameters.

Where the code and its design notes differ, the model follows the code:

- The code shows planes 0..6 only (`MAX_BCM` is 6). So bit 7 of every channel
  and the last BCM table entry are never used. A design with 8 planes would
  have a refresh of 16 x 8 steps. The code's refresh is 16 x 7 = 112 steps.
- The row wrap is written with the literal 15 and the lower row with `+ 16`.
  The contracts restate these as `MaxRows / 2`. For a 32-row panel the two
  agree.
- The doc comments of the line functions give a bound one pixel tighter than
  the code needs. The model takes the code's bound, `start + length <= 32`.

## Model

| member | source | states |
|---|---|---|
| Panel.DataMasksMatchShifts | inc/LedMatrix.h:40-53 | each data-pin mask is exactly `1 << ` its shift constant |
| Panel.DataMasksDisjoint | inc/LedMatrix.h:40-64 | the six data masks share no bit and together are 0xFC |
| Panel.ControlMasksLayout | inc/LedMatrix.h:56-65 | the seven control masks share no bit, lie in bits 0..6, and the row-select lines are exactly 0xF |
| GridArray.WordBit | inc/LedMatrix.h:79 | a bit read from a packed word is always 0 or 1 |
| GridArray.SetWordBit | inc/LedMatrix.h:80 | bit `col` of the word becomes 1 and every other bit keeps its value |
| GridArray.ClearWordBit | inc/LedMatrix.h:81 | the result equals `w & ~(1 << col)`; bit `col` becomes 0 and every other bit keeps its value |
| GridArray.SetWordIdempotent | inc/LedMatrix.h:80 | setting a bit of a word twice equals setting it once |
| GridArray.ClearWordIdempotent | inc/LedMatrix.h:81 | clearing a bit of a word twice equals clearing it once |
| GridArray.ClearWordAfterSet | inc/LedMatrix.h:80-81 | set then clear of one bit of a word equals clear alone |
| GridArray.GetBit | inc/LedMatrix.h:79 | GET_GRIDARRAY_BIT of any cell is 0 or 1 |
| GridArray.SetBit | inc/LedMatrix.h:80 | after SET the cell reads 1; every other bit of the row and every other row read as before |
| GridArray.ClearBit | inc/LedMatrix.h:81 | after CLEAR the cell reads 0; every other bit of the row and every other row read as before |
| GridArray.SetGridArrayBit | inc/LedMatrix.h:80 | the in-place OR-assignment leaves the array equal to SetBit of its old contents |
| GridArray.ClearGridArrayBit | inc/LedMatrix.h:81 | the in-place AND-NOT assignment leaves the array equal to ClearBit of its old contents |
| GridArray.SetIdempotent | inc/LedMatrix.h:80 | SET twice on a grid equals SET once |
| GridArray.ClearIdempotent | inc/LedMatrix.h:81 | CLEAR twice on a grid equals CLEAR once |
| GridArray.ClearAfterSet | inc/LedMatrix.h:80-81 | SET then CLEAR of a cell leaves it 0, and the whole grid equals CLEAR alone on the original |
| GridArray.ClearBitShrinks | inc/LedMatrix.h:81 | CLEAR never turns a 0 cell into 1 |
| LedMatrix.BcmLengthIsBinaryWeighted | src/LedMatrix.c:20-29 | the table has 8 entries, starts at 240 and each entry is twice the one before |
| LedMatrix.BcmLengthIsPow2 | src/LedMatrix.c:20-29 | entry k is exactly 240 * 2^k, so plane k carries the weight of bit k |
| LedMatrix.DemuxInRange | src/LedMatrix.c:17 | the select table has one entry per row pair and every entry fits the four select lines |
| LedMatrix.DemuxIsInvolution | src/LedMatrix.c:17 | the select table applied twice gives back the row pair, so it is a permutation of 0..15 |
| LedMatrix.DemuxIsInjective | src/LedMatrix.c:17 | no two row pairs get the same select value |
| LedMatrix.NextCursor | src/LedMatrix.c:133-143 | the cursor stays valid; after the last plane the row pair advances (15 wraps to 0) and the plane resets to 0, otherwise only the plane advances |
| LedMatrix.CursorAt | src/LedMatrix.c:133-143 | every position 0..111 of the refresh order is a valid cursor, and CursorIndex maps it back to that position |
| LedMatrix.CursorAtIndex | src/LedMatrix.c:133-143 | every valid cursor has a position below 112 and CursorAt maps that position back to it |
| LedMatrix.NextCursorIndex | src/LedMatrix.c:133-143 | one step moves the cursor one place along the refresh order, from the last place back to the first |
| LedMatrix.Advance | src/LedMatrix.c:133-143 | any number of steps keeps the cursor valid |
| LedMatrix.AdvanceIndex | src/LedMatrix.c:133-143 | within one refresh, k steps move the cursor k places along the refresh order |
| LedMatrix.AdvanceAdd | src/LedMatrix.c:133-143 | a + b steps are a steps followed by b steps |
| LedMatrix.CycleLengthCounts | src/LedMatrix.c:32 | one refresh is 16 row pairs times MAX_BCM + 1 = 7 planes |
| LedMatrix.ScanOrder | src/LedMatrix.c:133-143 | from (0, 0), step k of a refresh is the cursor at position k |
| LedMatrix.ScanVisitsEach | src/LedMatrix.c:133-143 | from (0, 0), one refresh reaches every (row pair, plane) and no two of its steps show the same one |
| LedMatrix.ScanReturns | src/LedMatrix.c:133-143 | after 112 steps from (0, 0) the cursor is back at (0, 0) |
| LedMatrix.RowPairPass | src/LedMatrix.c:126-143 | a row pair is shown for 7 consecutive steps, planes 0..6 in order, then the next row pair starts at plane 0 |
| LedMatrix.PlaneBit | src/LedMatrix.c:106-111 | one bit taken from a channel is 0 or 1 |
| LedMatrix.DataWord | src/LedMatrix.c:104-111 | the R0/G0/B0 bits of a column's word are bit `plane` of the upper pixel's R/G/B; the R1/G1/B1 bits are the same for the lower pixel; no bit outside the data pins is set |
| LedMatrix.PlaneBitIgnoresTop | src/LedMatrix.c:32 | for planes 0..MAX_BCM a channel's bit does not depend on its top bit |
| LedMatrix.TopBitNeverShown | src/LedMatrix.c:32 | every word a scan-out step can produce is unchanged when the top bit of every channel is cleared |
| LedMatrix.OnTimeIsProportional | src/LedMatrix.c:20-32 | over planes 0..6 a channel of value v is lit for 240 * (v mod 128) ticks |
| LedMatrix.Display.constructor | src/LedMatrix.c:8-14 | the framebuffer starts all (0, 0, 0), the draw colour (0, 0, 0), the cursor (0, 0) |
| LedMatrix.Display.SetColor | src/LedMatrix.c:155-159 | the draw colour becomes (r, g, b) and nothing else changes |
| LedMatrix.Display.ClearMatrix | src/LedMatrix.c:168-171 | all 1024 cells become (0, 0, 0) whatever they held |
| LedMatrix.Display.DrawSolidColor | src/LedMatrix.c:184-193 | all 1024 cells become the draw colour; the draw colour does not change |
| LedMatrix.Display.DrawRowLine | src/LedMatrix.c:209-217 | exactly cells (row, start .. start + length - 1) become the draw colour; all other cells keep their values |
| LedMatrix.Display.DrawColumnLine | src/LedMatrix.c:233-241 | exactly cells (start .. start + length - 1, col) become the draw colour; all other cells keep their values |
| LedMatrix.Display.DrawPixel | src/LedMatrix.c:254-257 | exactly cell (row, col) becomes the draw colour; all other cells and the draw colour keep their values |
| LedMatrix.Display.DrawGridArray | src/LedMatrix.c:267-279 | a cell whose grid bit is 1 becomes the draw colour; a cell whose bit is 0 keeps its value |
| LedMatrix.Display.ScanOutStep | src/LedMatrix.c:83-144 | returns the select value of the current row pair (only the four select bits), the DataWord of each of the 32 columns for rows r and r + 16 at the current plane, and the BCM length of the current plane; the cursor advances by NextCursor; the framebuffer and draw colour are only read |
| Pacman.KeyActionOf | src/pacman.c:130-146 | a byte that turns Pac-Man never turns it to NONE |
| Pacman.KeyMapRoundTrip | src/pacman.c:130-146 | w, a, d, s and UP, LEFT, RIGHT, DOWN map to each other one to one, in both directions |
| Pacman.OtherKeysIgnored | src/pacman.c:144-145 | every byte other than w, a, d, s leaves the direction alone |
| Pacman.Target | src/pacman.c:171-219 | the next cell along a direction, wrapping round the board, stays on the board and keeps the colour |
| Pacman.Move | src/pacman.c:171-219 | a move keeps Pac-Man on the board and keeps the colour |
| Pacman.MoveIsStepOnTorus | src/pacman.c:173-218 | Pac-Man moves to the next cell along the direction, wrapping at the edges, when that cell is open, and stays put otherwise; NONE never moves |
| Pacman.MoveLeftIsStep | src/pacman.c:175-183 | LEFT moves one column left, or from column 0 to column 31, exactly when that cell is open |
| Pacman.MoveRightIsStep | src/pacman.c:185-193 | RIGHT moves one column right, or from column 31 to column 0, exactly when that cell is open |
| Pacman.MoveUpIsStep | src/pacman.c:195-203 | UP moves one row up, or from row 0 to row 31, exactly when that cell is open |
| Pacman.MoveDownIsStep | src/pacman.c:205-213 | DOWN moves one row down, or from row 31 to row 0, exactly when that cell is open |
| Pacman.MoveAlongAxis | src/pacman.c:171-219 | a move changes at most one coordinate, on its direction's axis, by one or by a wrap between 0 and 31; NONE changes nothing |
| Pacman.MoveKeepsOpen | src/pacman.c:175-213 | a move never enters a wall, so from an open cell Pac-Man stays on open cells |
| Pacman.LevelRowsHaveEdges | src/pacman.c:12-46 | every row of the shipped level has its column-0 and column-31 bits set |
| Pacman.ShippedLevelBordered | src/pacman.c:9-46 | the shipped level is walled on all four edges and the start cell (1, 1) is open |
| Pacman.OpenIsInterior | src/pacman.c:171-219 | on a bordered level every open cell is off the edges |
| Pacman.BorderedMoveIsSafe | src/pacman.c:171-219 | on a bordered level every move from an open cell is defined and lands on an open cell off the edges |
| Pacman.BorderedMoveNeverWraps | src/pacman.c:171-219 | on a bordered level a move from an open cell is a stay or a single step to a neighbour, never a wrap |
| Pacman.Run | src/pacman.c:171-219 | any sequence of moves from an open cell of a bordered level is defined at every step and ends on an open cell off the edges |
| Pacman.ShippedGameIsSafe | src/pacman.c:9-46 | whatever directions arrive, Pac-Man on the shipped level stays on open interior cells, so the wrap branches and the out-of-range shifts and reads are never reached |
| Pacman.TickEatsPellet | src/pacman.c:238-254 | after a tick the pellet bit at Pac-Man's cell is 0, no pellet bit has appeared, and the frame shows Pac-Man's colour in Pac-Man's cell |
| Pacman.Game.constructor | src/pacman.c:6-82 | the game starts with the shipped level and pellets, Pac-Man at (1, 1) in (127, 127, 0), moving RIGHT |
| Pacman.Game.Uart4Int | src/pacman.c:118-148 | with a byte received, w/a/d/s set the direction to UP/LEFT/RIGHT/DOWN; any other byte, or no byte, leaves it unchanged |
| Pacman.Game.MovePacman | src/pacman.c:171-219 | Pac-Man's new position is Move of the old one in the current direction |
| Pacman.Game.DrawCharacter | src/pacman.c:157-161 | the draw colour becomes the character's colour and exactly the character's cell takes it |
| Pacman.Game.Timer1Int | src/pacman.c:228-255 | Pac-Man moves by Move; the pellet bit at the new cell is cleared and nothing else in the pellets changes; each cell of the frame shows Pac-Man, else a pellet (127, 127, 127), else a wall (0, 127, 127), else (0, 0, 0) |

## Left out

- Hardware initialisation (`InitMatrixDriver`, `InitGame`, `InitUART`) and all timer, NVIC and GPIO register writes. These are memory-mapped I/O with no logic of their own.
- The order of the control-port strobes inside the scan-out interrupt (OE, SCLK, LATCH, timer enable and disable, interrupt-flag clearing). A scan-out step returns the select value, the column words and the reload value instead.
- Interrupt priorities, preemption of the game tick by the scan-out interrupt, torn frames and real-time deadlines. These are concurrency and timing, not sequential behaviour.
- `src/utility.c`, `UARTTransmit` in `src/UART.c`, `src/main.c` and the constants of `inc/utility.h` and `inc/UART.h`. They only poll hardware status bits or enable clocks.
- The pin-map comment of `inc/LedMatrix.h`. It names OE and LATCH the other way round from the defines; the model follows the defines.
- `1 << 31` in the SET and CLEAR macros is signed overflow in C. It is modelled as the two's-complement word 0x80000000, which is what the compiler produces.
- Pacman.Game.MovePacman and Pacman.Game.Timer1Int: require that the move is defined (`MoveDefined`). At a board edge with a wall opposite, the C code shifts by -1 or 32, or reads row -1 or 32 of the level; that is undefined behaviour. ShippedGameIsSafe shows this never happens on the shipped level.
- LedMatrix.Display.DrawRowLine and LedMatrix.Display.DrawColumnLine: require the line to stay on the panel, as the C array bounds demand. A line of length 0 needs no bound.
- LedMatrix.Display.DrawPixel: requires the cell to be on the panel, as the C array bounds demand.
- The "check if Pac-Man won" step of the game tick. It is an empty comment in the code.
