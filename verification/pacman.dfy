/**
 * The game of src/pacman.c on top of the display engine: the direction
 * chosen by the last steering key received on UART4, Pac-Man's movement
 * with wall collision and edge wrap-around, pellet eating, and the frame
 * the Timer1 interrupt composes on every game tick.
 *
 * The UART receive-flag and data registers become the parameters of
 * Uart4Int; the level is the shipped wall grid, which the program never
 * writes.
 */
module Pacman {
  import opened Panel
  import opened GridArray
  import opened LedMatrix

  datatype PacmanDir = None | Left | Right | Up | Down

  /** A character on the board: its cell and the colour it is drawn in. */
  datatype Character = Character(row: Byte, col: Byte, color: Color)

  predicate OnGrid(p: Character)
  {
    p.row < MaxRows && p.col < MaxCols
  }

  // The initial data.

  const PacmanColor := Color(127, 127, 0)
  const WallColor := Color(0, 127, 127)
  const PelletColor := Color(127, 127, 127)

  /** Pac-Man starts at row 1, column 1, moving right. */
  const InitialPacman := Character(1, 1, PacmanColor)
  const InitialDir := Right

  /** The walls: a border round the board and a hollow box in the middle. */
  const Level: seq<bv32> := [
    0xFFFFFFFF, 0x80000001, 0x80000001, 0x80000001, 0x80000001, 0x80000001, 0x80000001, 0x80000001,
    0x80000001, 0x80000001, 0x80000001, 0x80000001, 0x80000001, 0x80000001, 0x80FFFF01, 0x80800101,
    0x80800101, 0x80FFFF01, 0x80000001, 0x80000001, 0x80000001, 0x80000001, 0x80000001, 0x80000001,
    0x80000001, 0x80000001, 0x80000001, 0x80000001, 0x80000001, 0x80000001, 0x80000001, 0xFFFFFFFF]

  /** Four 2x8 blocks of pellets in each half of the board. */
  const InitialPellets: seq<bv32> := [
    0x00000000, 0x000FF000, 0x000FF000, 0x00000000, 0x00000000, 0x00000000, 0x00000000, 0x000FF000,
    0x000FF000, 0x00000000, 0x00000000, 0x00000000, 0x00000000, 0x00000000, 0x00000000, 0x00000000,
    0x00000000, 0x00000000, 0x00000000, 0x00000000, 0x00000000, 0x00000000, 0x00000000, 0x000FF000,
    0x000FF000, 0x00000000, 0x00000000, 0x00000000, 0x00000000, 0x000FF000, 0x000FF000, 0x00000000]

  // ---------------------------------------------------------------------------
  // Steering keys.

  const KeyUp: bv8 := 0x77     // 'w'
  const KeyLeft: bv8 := 0x61   // 'a'
  const KeyRight: bv8 := 0x64  // 'd'
  const KeyDown: bv8 := 0x73   // 's'

  /** What a received byte does to the direction: turn it, or nothing. */
  datatype KeyAction = Ignore | Turn(dir: PacmanDir)

  /** The switch on the received byte; any byte other than w, a, d, s is ignored. */
  function KeyActionOf(key: bv8): (a: KeyAction)
    ensures a.Turn? ==> a.dir != None
  {
    if key == KeyUp then Turn(Up)
    else if key == KeyLeft then Turn(Left)
    else if key == KeyRight then Turn(Right)
    else if key == KeyDown then Turn(Down)
    else Ignore
  }

  /** The key that steers in a direction. */
  function KeyFor(d: PacmanDir): bv8
    requires d != None
  {
    match d
    case Up => KeyUp
    case Left => KeyLeft
    case Right => KeyRight
    case Down => KeyDown
  }

  /**
   * The key map is a bijection between the four steering keys and the four
   * directions: each direction has its key, and each key that turns is the
   * key of the direction it turns to.
   */
  lemma KeyMapRoundTrip(d: PacmanDir, key: bv8)
    ensures d != None ==> KeyActionOf(KeyFor(d)) == Turn(d)
    ensures KeyActionOf(key).Turn? ==> KeyFor(KeyActionOf(key).dir) == key
  {
  }

  /** Every byte outside w, a, d, s leaves the direction alone. */
  lemma OtherKeysIgnored(key: bv8)
    requires key != KeyUp && key != KeyLeft && key != KeyRight && key != KeyDown
    ensures KeyActionOf(key) == Ignore
  {
  }

  // ---------------------------------------------------------------------------
  // Movement.

  /**
   * GET_GRIDARRAY_BIT(level, row, col) == 1.  The bit is 0 or 1, so the
   * driver's test `!= 1` is the negation of this predicate.
   */
  predicate IsWall(level: seq<bv32>, row: nat, col: nat)
    requires IsGrid(level) && row < MaxRows && col < MaxCols
  {
    GetBit(level, row, col as BitIndex) == 1
  }

  /**
   * The moves for which MovePacman is defined C: at an edge whose opposite
   * cell is a wall, the driver goes on to test bit -1 or 32 of a row (an
   * out-of-range shift) or to read row -1 or 32 of the level (an
   * out-of-bounds read).
   */
  predicate MoveDefined(level: seq<bv32>, p: Character, dir: PacmanDir)
    requires IsGrid(level) && OnGrid(p)
  {
    match dir
    case Left => !(p.col == 0 && IsWall(level, p.row, MaxCols - 1))
    case Right => !(p.col == MaxCols - 1 && IsWall(level, p.row, 0))
    case Up => !(p.row == 0 && IsWall(level, MaxRows - 1, p.col))
    case Down => !(p.row == MaxRows - 1 && IsWall(level, 0, p.col))
    case None => true
  }

  /** The cell one step along `dir` on the torus of the board. */
  function Target(p: Character, dir: PacmanDir): (t: Character)
    requires OnGrid(p)
    ensures OnGrid(t) && t.color == p.color
  {
    match dir
    case Left => p.(col := (p.col + 31) % 32)
    case Right => p.(col := (p.col + 1) % 32)
    case Up => p.(row := (p.row + 31) % 32)
    case Down => p.(row := (p.row + 1) % 32)
    case None => p
  }

  /**
   * Pac-Man after one MovePacman: first the edge wrap, then the ordinary
   * step, each taken only when the cell it leads to is not a wall.
   */
  function Move(level: seq<bv32>, p: Character, dir: PacmanDir): (r: Character)
    requires IsGrid(level) && OnGrid(p) && MoveDefined(level, p, dir)
    ensures OnGrid(r) && r.color == p.color
  {
    match dir
    case Left =>
      if p.col == 0 && !IsWall(level, p.row, MaxCols - 1) then p.(col := MaxCols - 1)
      else if !IsWall(level, p.row, p.col - 1) then p.(col := p.col - 1)
      else p
    case Right =>
      if p.col == MaxCols - 1 && !IsWall(level, p.row, 0) then p.(col := 0)
      else if !IsWall(level, p.row, p.col + 1) then p.(col := p.col + 1)
      else p
    case Up =>
      if p.row == 0 && !IsWall(level, MaxRows - 1, p.col) then p.(row := MaxRows - 1)
      else if !IsWall(level, p.row - 1, p.col) then p.(row := p.row - 1)
      else p
    case Down =>
      if p.row == MaxRows - 1 && !IsWall(level, 0, p.col) then p.(row := 0)
      else if !IsWall(level, p.row + 1, p.col) then p.(row := p.row + 1)
      else p
    case None => p
  }

  /**
   * The two branches of each direction in one statement: Pac-Man moves to
   * the next cell along `dir`, wrapping round the board, when that cell is
   * not a wall, and stays put otherwise.
   */
  lemma MoveIsStepOnTorus(level: seq<bv32>, p: Character, dir: PacmanDir)
    requires IsGrid(level) && OnGrid(p) && MoveDefined(level, p, dir)
    ensures var t := Target(p, dir);
      Move(level, p, dir) == if dir == None || IsWall(level, t.row, t.col) then p else t
  {
    match dir
    case Left => MoveLeftIsStep(level, p);
    case Right => MoveRightIsStep(level, p);
    case Up => MoveUpIsStep(level, p);
    case Down => MoveDownIsStep(level, p);
    case None =>
  }

  lemma MoveLeftIsStep(level: seq<bv32>, p: Character)
    requires IsGrid(level) && OnGrid(p) && MoveDefined(level, p, Left)
    ensures var t := Target(p, Left);
      Move(level, p, Left) == if IsWall(level, t.row, t.col) then p else t
  {
    if p.col == 0 {
      assert Target(p, Left).col == MaxCols - 1;
    } else {
      assert Target(p, Left).col == p.col - 1;
    }
  }

  lemma MoveRightIsStep(level: seq<bv32>, p: Character)
    requires IsGrid(level) && OnGrid(p) && MoveDefined(level, p, Right)
    ensures var t := Target(p, Right);
      Move(level, p, Right) == if IsWall(level, t.row, t.col) then p else t
  {
    if p.col == MaxCols - 1 {
      assert Target(p, Right).col == 0;
    } else {
      assert Target(p, Right).col == p.col + 1;
    }
  }

  lemma MoveUpIsStep(level: seq<bv32>, p: Character)
    requires IsGrid(level) && OnGrid(p) && MoveDefined(level, p, Up)
    ensures var t := Target(p, Up);
      Move(level, p, Up) == if IsWall(level, t.row, t.col) then p else t
  {
    if p.row == 0 {
      assert Target(p, Up).row == MaxRows - 1;
    } else {
      assert Target(p, Up).row == p.row - 1;
    }
  }

  lemma MoveDownIsStep(level: seq<bv32>, p: Character)
    requires IsGrid(level) && OnGrid(p) && MoveDefined(level, p, Down)
    ensures var t := Target(p, Down);
      Move(level, p, Down) == if IsWall(level, t.row, t.col) then p else t
  {
    if p.row == MaxRows - 1 {
      assert Target(p, Down).row == 0;
    } else {
      assert Target(p, Down).row == p.row + 1;
    }
  }

  /**
   * A move changes at most one coordinate, along the axis of its direction,
   * by one or by a wrap between 0 and 31; the colour never changes and
   * NONE changes nothing.
   */
  lemma MoveAlongAxis(level: seq<bv32>, p: Character, dir: PacmanDir)
    requires IsGrid(level) && OnGrid(p) && MoveDefined(level, p, dir)
    ensures var r := Move(level, p, dir);
      r.color == p.color &&
      (dir == None ==> r == p) &&
      (dir == Left ==> r.row == p.row && (r.col == p.col || r.col + 1 == p.col || (p.col == 0 && r.col == 31))) &&
      (dir == Right ==> r.row == p.row && (r.col == p.col || r.col == p.col + 1 || (p.col == 31 && r.col == 0))) &&
      (dir == Up ==> r.col == p.col && (r.row == p.row || r.row + 1 == p.row || (p.row == 0 && r.row == 31))) &&
      (dir == Down ==> r.col == p.col && (r.row == p.row || r.row == p.row + 1 || (p.row == 31 && r.row == 0)))
  {
  }

  /** Collision: Pac-Man never enters a wall, so from an open cell Pac-Man stays on open cells. */
  lemma MoveKeepsOpen(level: seq<bv32>, p: Character, dir: PacmanDir)
    requires IsGrid(level) && OnGrid(p) && MoveDefined(level, p, dir)
    ensures var r := Move(level, p, dir);
      r != p ==> !IsWall(level, r.row, r.col)
    ensures !IsWall(level, p.row, p.col) ==> !IsWall(level, Move(level, p, dir).row, Move(level, p, dir).col)
  {
  }

  // ---------------------------------------------------------------------------
  // The shipped level keeps Pac-Man away from the edges.

  /** Rows 0 and 31 are all wall, and so are columns 0 and 31. */
  predicate Bordered(level: seq<bv32>)
    requires IsGrid(level)
  {
    forall r, c :: 0 <= r < MaxRows && 0 <= c < MaxCols && OnEdge(r, c) ==> IsWall(level, r, c)
  }

  predicate OnEdge(r: nat, c: nat)
  {
    r == 0 || r == MaxRows - 1 || c == 0 || c == MaxCols - 1
  }

  lemma FullWordIsWall(w: bv32, c: BitIndex)
    requires w == 0xFFFFFFFF
    ensures WordBit(w, c) == 1
  {
  }

  lemma EdgeBitsAreWall(w: bv32)
    requires w & 0x80000001 == 0x80000001
    ensures WordBit(w, 0) == 1 && WordBit(w, 31) == 1
  {
  }

  lemma LevelRowsHaveEdges(r: nat)
    requires r < MaxRows
    ensures Level[r] & 0x80000001 == 0x80000001
  {
    if r < 16 {
      if r < 8 { } else { }
    } else {
      if r < 24 { } else { }
    }
  }

  /** The shipped level is walled all round and Pac-Man starts on an open cell. */
  lemma ShippedLevelBordered()
    ensures IsGrid(Level) && Bordered(Level)
    ensures OnGrid(InitialPacman) && !IsWall(Level, InitialPacman.row, InitialPacman.col)
  {
    forall r, c | 0 <= r < MaxRows && 0 <= c < MaxCols && OnEdge(r, c)
      ensures IsWall(Level, r, c)
    {
      if r == 0 || r == MaxRows - 1 {
        FullWordIsWall(Level[r], c as BitIndex);
      } else {
        LevelRowsHaveEdges(r);
        EdgeBitsAreWall(Level[r]);
      }
    }
  }

  /**
   * On a bordered level an open cell is never on an edge, so every move from
   * it is defined, never wraps, and lands on an open cell.
   */
  lemma BorderedMoveIsSafe(level: seq<bv32>, p: Character, dir: PacmanDir)
    requires IsGrid(level) && Bordered(level) && OnGrid(p) && !IsWall(level, p.row, p.col)
    ensures MoveDefined(level, p, dir)
    ensures var r := Move(level, p, dir);
      !IsWall(level, r.row, r.col) && 0 < r.row < MaxRows - 1 && 0 < r.col < MaxCols - 1
  {
    OpenIsInterior(level, p);
    var r := Move(level, p, dir);
    MoveKeepsOpen(level, p, dir);
    OpenIsInterior(level, r);
  }

  /** On a bordered level every open cell is off the edges. */
  lemma OpenIsInterior(level: seq<bv32>, p: Character)
    requires IsGrid(level) && Bordered(level) && OnGrid(p) && !IsWall(level, p.row, p.col)
    ensures 0 < p.row < MaxRows - 1 && 0 < p.col < MaxCols - 1
  {
    assert !OnEdge(p.row, p.col);
  }

  /** So on a bordered level a move from an open cell never wraps round the board. */
  lemma BorderedMoveNeverWraps(level: seq<bv32>, p: Character, dir: PacmanDir)
    requires IsGrid(level) && Bordered(level) && OnGrid(p) && !IsWall(level, p.row, p.col)
    ensures MoveDefined(level, p, dir)
    ensures var r := Move(level, p, dir);
      r == p || (r.row == p.row && (r.col + 1 == p.col || r.col == p.col + 1)) ||
      (r.col == p.col && (r.row + 1 == p.row || r.row == p.row + 1))
  {
    BorderedMoveIsSafe(level, p, dir);
    MoveAlongAxis(level, p, dir);
  }

  /**
   * Pac-Man after following a sequence of directions, one per game tick,
   * from an open cell of a bordered level; every move on the way is defined.
   */
  function Run(level: seq<bv32>, p: Character, dirs: seq<PacmanDir>): (r: Character)
    requires IsGrid(level) && Bordered(level) && OnGrid(p) && !IsWall(level, p.row, p.col)
    ensures OnGrid(r) && !IsWall(level, r.row, r.col) && 0 < r.row < MaxRows - 1 && 0 < r.col < MaxCols - 1
    decreases |dirs|
  {
    BorderedMoveIsSafe(level, p, if |dirs| == 0 then None else dirs[0]);
    if |dirs| == 0 then p else Run(level, Move(level, p, dirs[0]), dirs[1..])
  }

  /**
   * Whatever keys arrive between ticks, Pac-Man on the shipped level stays
   * on open cells away from the edges: the wrap branches and the undefined
   * shifts and reads are never reached.
   */
  lemma {:induction false} ShippedGameIsSafe(dirs: seq<PacmanDir>)
    ensures IsGrid(Level) && Bordered(Level) && OnGrid(InitialPacman)
    ensures !IsWall(Level, InitialPacman.row, InitialPacman.col)
    ensures var r := Run(Level, InitialPacman, dirs);
      0 < r.row < MaxRows - 1 && 0 < r.col < MaxCols - 1 && !IsWall(Level, r.row, r.col)
  {
    ShippedLevelBordered();
  }

  // ---------------------------------------------------------------------------
  // The frame drawn on each tick.

  /**
   * The colour of cell (i, j) in a frame: Pac-Man above pellets above walls
   * above black.
   */
  function FrameCell(level: seq<bv32>, pellets: seq<bv32>, pac: Character, i: nat, j: nat): Color
    requires IsGrid(level) && IsGrid(pellets) && i < MaxRows && j < MaxCols
  {
    if i == pac.row && j == pac.col then pac.color
    else if GetBit(pellets, i, j as BitIndex) == 1 then PelletColor
    else if IsWall(level, i, j) then WallColor
    else Black
  }

  /**
   * After a tick no pellet is left under Pac-Man, no pellet appears that was
   * not there before, and the frame shows Pac-Man's own colour in Pac-Man's
   * cell and the colour of the wall, pellet or background everywhere else.
   */
  lemma TickEatsPellet(level: seq<bv32>, before: seq<bv32>, pac: Character)
    requires IsGrid(level) && IsGrid(before) && OnGrid(pac)
    ensures var after := ClearBit(before, pac.row, pac.col as BitIndex);
      GetBit(after, pac.row, pac.col as BitIndex) == 0 &&
      (forall i: nat, j: BitIndex :: i < MaxRows && GetBit(after, i, j) == 1 ==> GetBit(before, i, j) == 1) &&
      FrameCell(level, after, pac, pac.row, pac.col) == pac.color
  {
  }

  class Game {
    const display: Display
    /** The wall grid; the program never writes it. */
    const level: seq<bv32>
    const pellets: array<bv32>
    var pacman: Character
    var curPacmanDir: PacmanDir

    ghost predicate Valid()
      reads this
    {
      display.Shaped() && IsGrid(level) && pellets.Length == MaxRows &&
      OnGrid(pacman) && pacman.color == PacmanColor
    }

    /** The static initial values, drawn on the given display. */
    constructor (display: Display)
      requires display.Shaped()
      ensures Valid() && this.display == display && fresh(pellets)
      ensures level == Level && pellets[..] == InitialPellets
      ensures pacman == InitialPacman && curPacmanDir == InitialDir
    {
      this.display := display;
      level := Level;
      pellets := new bv32[MaxRows](i requires 0 <= i < MaxRows => InitialPellets[i]);
      pacman := InitialPacman;
      curPacmanDir := InitialDir;
    }

    /**
     * The UART4 receive interrupt: when a byte was received, w, a, d and s
     * turn Pac-Man up, left, right and down; any other byte, or no byte,
     * leaves the direction as it was.
     */
    method Uart4Int(received: bool, data: bv8)
      modifies this`curPacmanDir
      ensures received && KeyActionOf(data).Turn? ==> curPacmanDir == KeyActionOf(data).dir
      ensures !(received && KeyActionOf(data).Turn?) ==> curPacmanDir == old(curPacmanDir)
    {
      if received {
        if data == KeyUp {
          curPacmanDir := Up;
        } else if data == KeyLeft {
          curPacmanDir := Left;
        } else if data == KeyRight {
          curPacmanDir := Right;
        } else if data == KeyDown {
          curPacmanDir := Down;
        }
      }
    }

    /**
     * One step of Pac-Man in the current direction, in place.  The move must
     * be defined (see MoveDefined); on the shipped level it always is.
     */
    method MovePacman()
      requires Valid() && MoveDefined(level, pacman, curPacmanDir)
      modifies this`pacman
      ensures Valid()
      ensures pacman == Move(level, old(pacman), curPacmanDir)
    {
      var p := pacman;
      match curPacmanDir {
        case Left =>
          if p.col == 0 && !IsWall(level, p.row, MaxCols - 1) {
            p := p.(col := MaxCols - 1);
          } else if !IsWall(level, p.row, p.col - 1) {
            p := p.(col := p.col - 1);
          }
        case Right =>
          if p.col == MaxCols - 1 && !IsWall(level, p.row, 0) {
            p := p.(col := 0);
          } else if !IsWall(level, p.row, p.col + 1) {
            p := p.(col := p.col + 1);
          }
        case Up =>
          if p.row == 0 && !IsWall(level, MaxRows - 1, p.col) {
            p := p.(row := MaxRows - 1);
          } else if !IsWall(level, p.row - 1, p.col) {
            p := p.(row := p.row - 1);
          }
        case Down =>
          if p.row == MaxRows - 1 && !IsWall(level, 0, p.col) {
            p := p.(row := 0);
          } else if !IsWall(level, p.row + 1, p.col) {
            p := p.(row := p.row + 1);
          }
        case None =>
      }
      pacman := p;
    }

    /** A character's cell takes its colour, which becomes the draw colour. */
    method DrawCharacter(character: Character)
      requires display.Shaped() && OnGrid(character)
      modifies display.matrix, display`curDrawColor
      ensures display.curDrawColor == character.color
      ensures forall i, j :: 0 <= i < MaxRows && 0 <= j < MaxCols ==>
        display.matrix[i, j] ==
          if i == character.row && j == character.col then character.color else old(display.matrix[i, j])
    {
      display.SetColor(character.color.r, character.color.g, character.color.b);
      display.DrawPixel(character.row, character.col);
    }

    /**
     * The Timer1 interrupt, one game tick: move Pac-Man, eat the pellet in
     * Pac-Man's new cell, and redraw the whole frame.
     */
    method Timer1Int()
      requires Valid() && MoveDefined(level, pacman, curPacmanDir)
      modifies this`pacman, pellets, display.matrix, display`curDrawColor
      ensures Valid()
      ensures pacman == Move(level, old(pacman), curPacmanDir)
      ensures pellets[..] == ClearBit(old(pellets[..]), pacman.row, pacman.col as BitIndex)
      ensures display.curDrawColor == PacmanColor
      ensures forall i, j :: 0 <= i < MaxRows && 0 <= j < MaxCols ==>
        display.matrix[i, j] == FrameCell(level, pellets[..], pacman, i, j)
    {
      MovePacman();
      ClearGridArrayBit(pellets, pacman.row, pacman.col as BitIndex);
      display.ClearMatrix();
      display.SetColor(0, 127, 127);
      display.DrawGridArray(level);
      display.SetColor(127, 127, 127);
      display.DrawGridArray(pellets[..]);
      DrawCharacter(pacman);
    }
  }
}
