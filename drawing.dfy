/** Drawing.java: the drawing commands and their text form, the Drawing object
    (height, width, background colour and an append-only list of commands), its
    text form, the reading of a drawing from its lines, and `draw`, which replays
    the commands against a cursor on a background-filled canvas. */
module Drawings {
  import opened Wrappers
  import opened Int32
  import opened Text
  import opened Images

  // ---------------------------------------------------------------------------
  // Direction and DrawingCommand
  // ---------------------------------------------------------------------------

  datatype Direction = Up | Down | Left | Right

  /** Direction.toString: one word, which `ParseDirection` reads back. */
  function DirectionName(d: Direction): (r: string)
    ensures IsWord(r)
  {
    match d
    case Up => "up"
    case Down => "down"
    case Left => "left"
    case Right => "right"
  }

  /** The parser's chain of exact, case-sensitive comparisons on the first word. */
  function ParseDirection(s: string): (r: Option<Direction>)
    ensures r.Some? ==> DirectionName(r.value) == s
    ensures r.None? ==> forall d: Direction :: DirectionName(d) != s
  {
    if s == "up" then Some(Up)
    else if s == "down" then Some(Down)
    else if s == "left" then Some(Left)
    else if s == "right" then Some(Right)
    else None
  }

  /** A DrawingCommand: where to go, how far, and whether (and with which colour) to
      paint the cells passed. */
  datatype Command = Command(dir: Direction, distance: int32, paint: bool, colour: int32)

  /** What the parser can produce: a painting colour is one of the 16, and a
      non-painting command keeps the field's default 0. */
  predicate WellFormed(c: Command) {
    if c.paint then 0 <= c.colour <= 15 else c.colour == 0
  }

  /** The four messages of the parser, each of which ends the Java program. */
  datatype ParseError = BadArity | BadDirection | BadDistance | BadColour

  /** DrawingCommand(String): two or three whitespace-separated words, a direction,
      a decimal int distance, and for three words a hex colour in 0..15.  The number
      of words decides the arity error and the paint flag. */
  function ParseCommand(s: string): (r: Result<Command, ParseError>)
    ensures |Split(s)| != 2 && |Split(s)| != 3 ==> r == Err(BadArity)
    ensures r.Ok? ==>
      var c := r.value;
      && WellFormed(c) && c.paint == (|Split(s)| == 3)
      && DirectionName(c.dir) == Split(s)[0]
      && ParseInt(Split(s)[1], 10) == Some(c.distance)
      && (c.paint ==> ParseInt(Split(s)[2], 16) == Some(c.colour))
  {
    var elems := Split(s);
    if |elems| != 3 && |elems| != 2 then Err(BadArity)
    else
      match ParseDirection(elems[0])
      case None => Err(BadDirection)
      case Some(dir) =>
        match ParseInt(elems[1], 10)
        case None => Err(BadDistance)
        case Some(distance) =>
          if |elems| == 2 then Ok(Command(dir, distance, false, 0))
          else
            match ParseInt(elems[2], 16)
            case None => Err(BadColour)
            case Some(colour) =>
              if colour < 0 || colour > 15 then Err(BadColour)
              else Ok(Command(dir, distance, true, colour))
  }

  /** DrawingCommand.toString: a non-painting command ends in a blank.  The text is
      a single line. */
  function CommandText(c: Command): (r: string)
    ensures NoLineBreak(r)
  {
    var name, dist, blank := DirectionName(c.dir), Decimal(c.distance), " ";
    var tail := if c.paint then HexString(c.colour) else "";
    NoLineBreakConcat(name, blank);
    NoLineBreakConcat(name + blank, dist);
    NoLineBreakConcat(name + blank + dist, blank);
    NoLineBreakConcat(name + blank + dist + blank, tail);
    name + blank + dist + blank + tail
  }

  lemma DirectionNameWord(d: Direction)
    ensures ParseDirection(DirectionName(d)) == Some(d)
  {
  }

  /** Parsing the text of a command gives back its direction, distance and paint
      flag, and its colour when it paints; the trailing blank of the non-painting
      form is dropped by `split`. */
  lemma CommandRoundTrip(c: Command)
    requires c.paint ==> 0 <= c.colour <= 15
    ensures ParseCommand(CommandText(c)) == Ok(if c.paint then c else c.(colour := 0))
  {
    var name, dist := DirectionName(c.dir), Decimal(c.distance);
    DirectionNameWord(c.dir);
    DecimalRoundTrip(c.distance);
    if c.paint {
      var hex := HexString(c.colour);
      HexDigitText(c.colour);
      assert NoSpace(hex);
      SplitThree(name, dist, hex);
    } else {
      assert CommandText(c) == name + " " + dist + " ";
      SplitTwoTrailing(name, dist);
    }
  }

  /** A well-formed command survives the text form unchanged. */
  lemma WellFormedRoundTrip(c: Command)
    requires WellFormed(c)
    ensures ParseCommand(CommandText(c)) == Ok(c)
  {
    CommandRoundTrip(c);
  }

  /** A single word has the wrong number of parts. */
  lemma ArityExample()
    ensures ParseCommand("up") == Err(BadArity)
  {
    FieldsOfWord("up");
  }

  /** `g` is not a hexadecimal digit. */
  lemma ColourExample(s: string)
    requires s == "right 1 g"
    ensures ParseCommand(s) == Err(BadColour)
  {
    assert Split(s) == ["right", "1", "g"] by {
      SplitThree("right", "1", "g");
      assert s == "right" + " " + "1" + " " + "g";
    }
    assert ParseInt("1", 10) == Some(1) by {
      DecimalRoundTrip(1);
      assert Decimal(1) == "1";
    }
    assert ParseInt("g", 16) == None by {
      assert "g"[..0] == [];
      assert DigitsValue("g", 16) == None;
    }
    BadColourCase(s);
  }

  lemma BadColourCase(s: string)
    requires |Split(s)| == 3 && ParseDirection(Split(s)[0]).Some? && ParseInt(Split(s)[1], 10).Some?
    requires ParseInt(Split(s)[2], 16).None?
    ensures ParseCommand(s) == Err(BadColour)
  {
  }

  /** Integer.parseInt accepts a negative distance, and the parser lets it through. */
  lemma NegativeDistanceExample()
    ensures ParseCommand("right -1 3") == Ok(Command(Right, -1, true, 3))
  {
    var c := Command(Right, -1, true, 3);
    CommandRoundTrip(c);
    assert CommandText(c) == "right -1 3";
  }

  /** Hex colours: `c` is 12. */
  lemma HexColourExample()
    ensures ParseCommand("up 2 c") == Ok(Command(Up, 2, true, 12))
  {
    var c := Command(Up, 2, true, 12);
    CommandRoundTrip(c);
    assert CommandText(c) == "up 2 c";
  }

  /** A command without a colour moves without painting. */
  lemma MoveExample(s: string)
    requires s == "left 3"
    ensures ParseCommand(s) == Ok(Command(Left, 3, false, 0))
  {
    assert Split(s) == ["left", "3"] by {
      FieldsOfSpaced("left", "3");
      FieldsOfWord("3");
      assert s == "left" + [' '] + "3";
    }
    assert ParseDirection("left") == Some(Left);
    assert ParseInt("3", 10) == Some(3) by {
      DecimalRoundTrip(3);
      assert Decimal(3) == "3";
    }
  }

  // ---------------------------------------------------------------------------
  // The meaning of the commands: what `draw` does, as functions
  // ---------------------------------------------------------------------------

  predicate Vertical(dir: Direction) {
    dir == Up || dir == Down
  }

  /** The coordinate a direction changes: y for up and down, x for left and right. */
  function Along(c: Coord, dir: Direction): int32 {
    if Vertical(dir) then c.y else c.x
  }

  /** c with the coordinate that dir changes set to v. */
  function Place(c: Coord, dir: Direction, v: int32): Coord {
    if Vertical(dir) then c.(y := v) else c.(x := v)
  }

  /** The change of that coordinate over n steps: up and left count down. */
  function Delta(dir: Direction, n: int): int {
    if dir == Up || dir == Left then -n else n
  }

  /** The position n cells from c in a direction, as an int holds it. */
  function Offset(c: Coord, dir: Direction, n: int): Coord {
    Place(c, dir, Wrap(Along(c, dir) + Delta(dir, n)))
  }

  /** One step of `newCursor` (`newCursor.y--` for up, and so on). */
  function Next(c: Coord, dir: Direction): Coord {
    Offset(c, dir, 1)
  }

  /** Moving along a line: the position after n+1 steps is one step past the
      position after n, and n steps past the position after one. */
  lemma OffsetNext(c: Coord, dir: Direction, n: int)
    ensures Offset(Next(c, dir), dir, n) == Offset(c, dir, n + 1)
    ensures Next(Offset(c, dir, n), dir) == Offset(c, dir, n + 1)
  {
    OffsetTwice(c, dir, 1, n);
    OffsetTwice(c, dir, n, 1);
  }

  lemma OffsetTwice(c: Coord, dir: Direction, m: int, n: int)
    ensures Offset(Offset(c, dir, m), dir, n) == Offset(c, dir, m + n)
  {
    var a := Along(c, dir) + Delta(dir, m);
    WrapAdd(a, Delta(dir, n));
    assert Delta(dir, m) + Delta(dir, n) == Delta(dir, m + n);
  }

  /** Fewer than 2^32 steps never come back to a position already passed. */
  lemma OffsetInjective(c: Coord, dir: Direction, i: int, j: int)
    requires 0 <= i < MODULUS && 0 <= j < MODULUS
    requires Offset(c, dir, i) == Offset(c, dir, j)
    ensures i == j
  {
    assert Along(Offset(c, dir, i), dir) == Along(Offset(c, dir, j), dir);
    WrapInjective(Along(c, dir) + Delta(dir, i), Along(c, dir) + Delta(dir, j));
  }

  /** The cursor, and the canvas painted so far. */
  datatype State = State(grid: Grid, cursor: Coord)

  /** Walks n cells from `at`, painting each new cell; the first cell that does not
      exist stops the walk with BadCommand. */
  function Paint(g: Grid, at: Coord, dir: Direction, n: nat, colour: int32): (r: Result<Grid, BadCommand>)
    ensures r.Ok? ==> SameShape(r.value, g)
    ensures r.Err? ==> !InBounds(g, r.error.x, r.error.y)
    decreases n
  {
    if n == 0 then Ok(g)
    else
      var p := Next(at, dir);
      match SetCell(g, p.x, p.y, colour)
      case Err(e) => Err(e)
      case Ok(g') => Paint(g', p, dir, n - 1, colour)
  }

  /** How often the loop of a command runs: a negative distance runs it zero times. */
  function Steps(c: Command): nat {
    if c.distance > 0 then c.distance else 0
  }

  /** One iteration of the loop over the commands in `draw`.  The canvas keeps its
      shape, and only a cell outside it can make the command fail. */
  function Step(s: State, c: Command): (r: Result<State, BadCommand>)
    ensures r.Ok? ==> SameShape(r.value.grid, s.grid)
    ensures r.Err? ==> !InBounds(s.grid, r.error.x, r.error.y)
  {
    if c.distance == 0 then
      if c.paint then
        match SetCell(s.grid, s.cursor.x, s.cursor.y, c.colour)
        case Err(e) => Err(e)
        case Ok(g) => Ok(State(g, s.cursor))
      else Ok(s)
    else
      var end := Offset(s.cursor, c.dir, Steps(c));
      if c.paint then
        match Paint(s.grid, s.cursor, c.dir, Steps(c), c.colour)
        case Err(e) => Err(e)
        case Ok(g) => Ok(State(g, end))
      else Ok(State(s.grid, end))
  }

  /** The commands one after the other; the first failure ends the run.  The canvas
      keeps its shape, and a run can only fail at a cell outside it. */
  function Run(s: State, cmds: seq<Command>): (r: Result<State, BadCommand>)
    ensures r.Ok? ==> SameShape(r.value.grid, s.grid)
    ensures r.Err? ==> !InBounds(s.grid, r.error.x, r.error.y)
    decreases |cmds|
  {
    if cmds == [] then Ok(s)
    else
      match Step(s, cmds[0])
      case Err(e) => Err(e)
      case Ok(t) => Run(t, cmds[1..])
  }

  /** The value of a Drawing object. */
  datatype DrawingData = DrawingData(height: int32, width: int32, background: int32, commands: seq<Command>)

  /** The canvas `draw` starts from: height rows of width cells of the background,
      and the cursor at (0,0). */
  function Start(d: DrawingData): State
    requires d.height >= 0 && d.width >= 0
  {
    State(Blank(d.height, d.width, d.background), Coord(0, 0))
  }

  /** draw(): the image the commands paint, or the BadCommand that stopped them.  The
      image is height by width, and BadCommand(x, y) is only reported for an (x, y)
      outside [0, width) x [0, height). */
  function Execute(d: DrawingData): (r: Result<Grid, BadCommand>)
    requires d.height >= 0 && d.width >= 0
    ensures r.Ok? ==> IsRaster(r.value, d.height, d.width)
    ensures r.Err? ==> !(0 <= r.error.x < d.width && 0 <= r.error.y < d.height)
  {
    match Run(Start(d), d.commands)
    case Err(e) => Err(e)
    case Ok(s) => Ok(s.grid)
  }

  // ---------------------------------------------------------------------------
  // Properties of the commands
  // ---------------------------------------------------------------------------

  /** Cell (x, y) is one of the cells 1..n along dir from `at`. */
  ghost predicate OnPath(at: Coord, dir: Direction, n: nat, x: int, y: int) {
    exists i :: 1 <= i <= n && Offset(at, dir, i).x == x && Offset(at, dir, i).y == y
  }

  /** Cell i of the walk is the first that does not exist. */
  predicate FirstOutside(g: Grid, at: Coord, dir: Direction, i: int) {
    && !InBounds(g, Offset(at, dir, i).x, Offset(at, dir, i).y)
    && forall j | 1 <= j < i :: InBounds(g, Offset(at, dir, j).x, Offset(at, dir, j).y)
  }

  predicate SameShape(a: Grid, b: Grid) {
    |a| == |b| && forall y | 0 <= y < |a| :: |a[y]| == |b[y]|
  }

  lemma OnPathStep(at: Coord, dir: Direction, n: nat, x: int, y: int)
    ensures OnPath(at, dir, n + 1, x, y) <==>
      (Next(at, dir).x == x && Next(at, dir).y == y) || OnPath(Next(at, dir), dir, n, x, y)
  {
    var p := Next(at, dir);
    OffsetsFromNext(at, dir, n);
    if OnPath(at, dir, n + 1, x, y) {
      var i :| 1 <= i <= n + 1 && Offset(at, dir, i).x == x && Offset(at, dir, i).y == y;
      if i > 1 {
        assert Offset(p, dir, i - 1) == Offset(at, dir, i);
      }
    }
    if OnPath(p, dir, n, x, y) {
      var i :| 1 <= i <= n && Offset(p, dir, i).x == x && Offset(p, dir, i).y == y;
      assert Offset(at, dir, i + 1) == Offset(p, dir, i);
    }
  }

  /** The cells 1..n along the walk, seen from the first of them. */
  lemma OffsetsFromNext(at: Coord, dir: Direction, n: nat)
    ensures Next(at, dir) == Offset(at, dir, 1)
    ensures forall i | 0 <= i <= n :: Offset(Next(at, dir), dir, i) == Offset(at, dir, i + 1)
  {
    OffsetNext(at, dir, 0);
    forall i | 0 <= i <= n
      ensures Offset(Next(at, dir), dir, i) == Offset(at, dir, i + 1)
    {
      OffsetNext(at, dir, i);
    }
  }

  /** Paint succeeds exactly when every cell 1..n exists. */
  lemma {:induction false} PaintOk(g: Grid, at: Coord, dir: Direction, n: nat, colour: int32)
    ensures Paint(g, at, dir, n, colour).Ok? <==>
      forall i | 1 <= i <= n :: InBounds(g, Offset(at, dir, i).x, Offset(at, dir, i).y)
    decreases n
  {
    if n > 0 {
      var p := Next(at, dir);
      OffsetsFromNext(at, dir, n);
      var setp := SetCell(g, p.x, p.y, colour);
      if setp.Ok? {
        PaintOk(setp.value, p, dir, n - 1, colour);
        assert forall i | 1 <= i <= n - 1 ::
          InBounds(setp.value, Offset(p, dir, i).x, Offset(p, dir, i).y) ==
          InBounds(g, Offset(at, dir, i + 1).x, Offset(at, dir, i + 1).y);
        if Paint(g, at, dir, n, colour).Ok? {
          forall i | 1 <= i <= n
            ensures InBounds(g, Offset(at, dir, i).x, Offset(at, dir, i).y)
          {
            if i > 1 {
              assert InBounds(setp.value, Offset(p, dir, i - 1).x, Offset(p, dir, i - 1).y);
            }
          }
        }
      }
    }
  }

  /** A successful Paint keeps the shape, paints exactly the cells 1..n, and leaves
      every other cell alone. */
  lemma {:induction false} PaintCells(g: Grid, at: Coord, dir: Direction, n: nat, colour: int32)
    requires Paint(g, at, dir, n, colour).Ok?
    ensures SameShape(Paint(g, at, dir, n, colour).value, g)
    ensures forall y, x | InBounds(g, x, y) ::
      Paint(g, at, dir, n, colour).value[y][x] == if OnPath(at, dir, n, x, y) then colour else g[y][x]
    decreases n
  {
    if n == 0 {
      forall y, x | InBounds(g, x, y)
        ensures !OnPath(at, dir, 0, x, y)
      {
      }
    } else {
      var p := Next(at, dir);
      var g' := SetCell(g, p.x, p.y, colour).value;
      assert Paint(g, at, dir, n, colour) == Paint(g', p, dir, n - 1, colour);
      PaintCells(g', p, dir, n - 1, colour);
      forall y, x | InBounds(g, x, y)
        ensures OnPath(at, dir, n, x, y) <==> (p.x == x && p.y == y) || OnPath(p, dir, n - 1, x, y)
      {
        OnPathStep(at, dir, n - 1, x, y);
      }
    }
  }

  /** A failing Paint reports the first of the cells 1..n that does not exist. */
  lemma {:induction false} PaintError(g: Grid, at: Coord, dir: Direction, n: nat, colour: int32)
    requires Paint(g, at, dir, n, colour).Err?
    ensures exists i :: (1 <= i <= n && FirstOutside(g, at, dir, i) &&
      Paint(g, at, dir, n, colour).error == BadCommand(Offset(at, dir, i).x, Offset(at, dir, i).y))
    decreases n
  {
    var p := Next(at, dir);
    OffsetsFromNext(at, dir, n);
    var setp := SetCell(g, p.x, p.y, colour);
    if setp.Ok? {
      var g' := setp.value;
      var r := Paint(g, at, dir, n, colour);
      assert r == Paint(g', p, dir, n - 1, colour);
      PaintError(g', p, dir, n - 1, colour);
      var i :| 1 <= i <= n - 1 && FirstOutside(g', p, dir, i) &&
        r.error == BadCommand(Offset(p, dir, i).x, Offset(p, dir, i).y);
      forall j | 1 <= j < i + 1
        ensures InBounds(g, Offset(at, dir, j).x, Offset(at, dir, j).y)
      {
        if j > 1 {
          assert InBounds(g', Offset(p, dir, j - 1).x, Offset(p, dir, j - 1).y);
        }
      }
      assert FirstOutside(g, at, dir, i + 1);
    } else {
      assert FirstOutside(g, at, dir, 1);
    }
  }

  /** Paint succeeds exactly when every cell 1..n exists; it then paints exactly those
      cells and nothing else, and otherwise fails at the first missing one. */
  lemma PaintSpec(g: Grid, at: Coord, dir: Direction, n: nat, colour: int32)
    ensures Paint(g, at, dir, n, colour).Ok? <==>
      forall i | 1 <= i <= n :: InBounds(g, Offset(at, dir, i).x, Offset(at, dir, i).y)
    ensures Paint(g, at, dir, n, colour).Ok? ==>
      var r := Paint(g, at, dir, n, colour).value;
      SameShape(r, g) &&
      forall y, x | InBounds(g, x, y) :: r[y][x] == if OnPath(at, dir, n, x, y) then colour else g[y][x]
    ensures Paint(g, at, dir, n, colour).Err? ==>
      exists i :: 1 <= i <= n && FirstOutside(g, at, dir, i) &&
        Paint(g, at, dir, n, colour).error == BadCommand(Offset(at, dir, i).x, Offset(at, dir, i).y)
  {
    PaintOk(g, at, dir, n, colour);
    if Paint(g, at, dir, n, colour).Ok? {
      PaintCells(g, at, dir, n, colour);
    } else {
      PaintError(g, at, dir, n, colour);
    }
  }

  /** A painting command of distance d > 0 sets exactly the d distinct cells after the
      cursor, including the last and never the start cell, and leaves the cursor
      d cells on; it fails with BadCommand at the first of those cells that lies
      outside the canvas. */
  lemma PaintCommand(s: State, c: Command)
    requires c.paint && c.distance > 0
    ensures Step(s, c).Ok? <==>
      forall i | 1 <= i <= c.distance :: InBounds(s.grid, Offset(s.cursor, c.dir, i).x, Offset(s.cursor, c.dir, i).y)
    ensures Step(s, c).Ok? ==>
      var t := Step(s, c).value;
      t.cursor == Offset(s.cursor, c.dir, c.distance) && SameShape(t.grid, s.grid) &&
      forall y, x | InBounds(s.grid, x, y) ::
        t.grid[y][x] == if OnPath(s.cursor, c.dir, c.distance, x, y) then c.colour else s.grid[y][x]
    ensures !OnPath(s.cursor, c.dir, c.distance, s.cursor.x, s.cursor.y)
    ensures forall i, j | 1 <= i < j <= c.distance :: Offset(s.cursor, c.dir, i) != Offset(s.cursor, c.dir, j)
    ensures Step(s, c).Err? ==>
      exists i :: 1 <= i <= c.distance && FirstOutside(s.grid, s.cursor, c.dir, i) &&
        Step(s, c).error == BadCommand(Offset(s.cursor, c.dir, i).x, Offset(s.cursor, c.dir, i).y)
  {
    PaintSpec(s.grid, s.cursor, c.dir, c.distance, c.colour);
    assert Offset(s.cursor, c.dir, 0) == s.cursor;
    if OnPath(s.cursor, c.dir, c.distance, s.cursor.x, s.cursor.y) {
      var i :| 1 <= i <= c.distance && Offset(s.cursor, c.dir, i).x == s.cursor.x && Offset(s.cursor, c.dir, i).y == s.cursor.y;
      OffsetInjective(s.cursor, c.dir, i, 0);
    }
    forall i, j | 1 <= i < j <= c.distance
      ensures Offset(s.cursor, c.dir, i) != Offset(s.cursor, c.dir, j)
    {
      if Offset(s.cursor, c.dir, i) == Offset(s.cursor, c.dir, j) {
        OffsetInjective(s.cursor, c.dir, i, j);
      }
    }
  }

  /** A painting command of distance 0 sets only the cell under the cursor, and
      leaves the cursor where it is; that cell must exist. */
  lemma PaintInPlace(s: State, c: Command)
    requires c.paint && c.distance == 0
    ensures Step(s, c).Ok? <==> InBounds(s.grid, s.cursor.x, s.cursor.y)
    ensures Step(s, c).Ok? ==>
      var t := Step(s, c).value;
      t.cursor == s.cursor && SameShape(t.grid, s.grid) &&
      forall y, x | InBounds(s.grid, x, y) ::
        t.grid[y][x] == if x == s.cursor.x && y == s.cursor.y then c.colour else s.grid[y][x]
    ensures Step(s, c).Err? ==> Step(s, c).error == BadCommand(s.cursor.x, s.cursor.y)
  {
  }

  /** A command that does not paint never fails and touches no cell: it only moves
      the cursor, by its distance, or not at all when that is 0 or negative. */
  lemma MoveCommand(s: State, c: Command)
    requires !c.paint
    ensures Step(s, c) == Ok(State(s.grid, Offset(s.cursor, c.dir, Steps(c))))
  {
    assert Offset(s.cursor, c.dir, 0) == s.cursor;
  }

  /** A negative distance changes neither the cursor nor any cell. */
  lemma NegativeDistance(s: State, c: Command)
    requires c.distance < 0
    ensures Step(s, c) == Ok(s)
  {
    assert Offset(s.cursor, c.dir, 0) == s.cursor;
  }

  /** Running a + b is running a and then b from where a left off. */
  lemma {:induction false} RunAppend(s: State, a: seq<Command>, b: seq<Command>)
    ensures Run(s, a + b) == match Run(s, a) case Err(e) => Err(e) case Ok(t) => Run(t, b)
    decreases |a|
  {
    if a != [] {
      assert (a + b)[0] == a[0];
      assert (a + b)[1..] == a[1..] + b;
      match Step(s, a[0])
      case Err(e) =>
      case Ok(t) => RunAppend(t, a[1..], b);
    } else {
      assert a + b == b;
    }
  }

  /** Drawing after addCommand(c) is drawing the earlier commands and then c. */
  lemma ExecuteAfterAdd(d: DrawingData, c: Command)
    requires d.height >= 0 && d.width >= 0
    ensures Run(Start(d), d.commands + [c]) ==
      match Run(Start(d), d.commands) case Err(e) => Err(e) case Ok(t) => Step(t, c)
  {
    RunAppend(Start(d), d.commands, [c]);
    match Run(Start(d), d.commands)
    case Err(e) =>
    case Ok(t) =>
      assert [c][1..] == [];
      match Step(t, c)
      case Err(e) =>
      case Ok(u) =>
  }

  /** SetCell on a w-column raster yields the raster h that differs from g in the
      one cell. */
  lemma Update(g: Grid, x: int32, y: int32, colour: int32, h: Grid, w: nat)
    requires IsRaster(g, |h|, w) && IsRaster(h, |h|, w) && InBounds(g, x, y)
    requires forall i, j | 0 <= i < |h| && 0 <= j < w :: h[i][j] == if i == y && j == x then colour else g[i][j]
    ensures SetCell(g, x, y, colour) == Ok(h)
  {
    var r := SetCell(g, x, y, colour).value;
    forall i | 0 <= i < |h|
      ensures r[i] == h[i]
    {
      assert |r[i]| == w == |h[i]|;
      assert forall j | 0 <= j < w :: r[i][j] == h[i][j];
    }
    assert r == h;
  }

  /** The example in the comment of Drawing.java: on a 4x2 canvas of 0s, `down 2 1`,
      `right 1 2`, `up 1`, `up 1 9` give the rows 09, 10, 12, 00. */
  lemma WorkedExample(cmds: seq<Command>)
    requires cmds == [Command(Down, 2, true, 1), Command(Right, 1, true, 2),
                      Command(Up, 1, false, 0), Command(Up, 1, true, 9)]
    ensures Execute(DrawingData(4, 2, 0, cmds)).Ok?
    ensures RowTexts(Execute(DrawingData(4, 2, 0, cmds)).value) == ["09", "10", "12", "00"]
  {
    var d := DrawingData(4, 2, 0, cmds);
    var s0 := Start(d);
    var z: seq<int32> := [0, 0];
    var s1 := State([[0, 0], [1, 0], [1, 0], [0, 0]], Coord(0, 2));
    var s2 := State([[0, 0], [1, 0], [1, 2], [0, 0]], Coord(1, 2));
    var s3 := State(s2.grid, Coord(1, 1));
    var s4 := State([[0, 9], [1, 0], [1, 2], [0, 0]], Coord(1, 0));
    assert s0 == State([z, z, z, z], Coord(0, 0)) by {
      assert forall y | 0 <= y < 4 :: s0.grid[y] == z;
    }
    assert Run(s3, cmds[3..]) == Ok(s4) by {
      ExampleStep4(s3, cmds[3], s4);
      assert cmds[3..][1..] == [];
    }
    assert Run(s2, cmds[2..]) == Ok(s4) by {
      ExampleStep3(s2, cmds[2], s3);
      assert cmds[2..][1..] == cmds[3..];
    }
    assert Run(s1, cmds[1..]) == Ok(s4) by {
      ExampleStep2(s1, cmds[1], s2);
      assert cmds[1..][1..] == cmds[2..];
    }
    assert Run(s0, cmds) == Ok(s4) by {
      ExampleStep1(s0, cmds[0], s1);
    }
    ExampleText(s4.grid);
  }

  lemma ExampleStep1(s: State, c: Command, t: State)
    requires s == State([[0, 0], [0, 0], [0, 0], [0, 0]], Coord(0, 0)) && c == Command(Down, 2, true, 1)
    requires t == State([[0, 0], [1, 0], [1, 0], [0, 0]], Coord(0, 2))
    ensures Step(s, c) == Ok(t)
  {
    var ga: Grid := [[0, 0], [1, 0], [0, 0], [0, 0]];
    Update(s.grid, 0, 1, 1, ga, 2);
    Update(ga, 0, 2, 1, t.grid, 2);
    assert Paint(ga, Coord(0, 1), Down, 1, 1) == Ok(t.grid);
    assert Paint(s.grid, Coord(0, 0), Down, 2, 1) == Ok(t.grid);
  }

  lemma ExampleStep2(s: State, c: Command, t: State)
    requires s == State([[0, 0], [1, 0], [1, 0], [0, 0]], Coord(0, 2)) && c == Command(Right, 1, true, 2)
    requires t == State([[0, 0], [1, 0], [1, 2], [0, 0]], Coord(1, 2))
    ensures Step(s, c) == Ok(t)
  {
    Update(s.grid, 1, 2, 2, t.grid, 2);
  }

  lemma ExampleStep3(s: State, c: Command, t: State)
    requires s == State([[0, 0], [1, 0], [1, 2], [0, 0]], Coord(1, 2)) && c == Command(Up, 1, false, 0)
    requires t == State(s.grid, Coord(1, 1))
    ensures Step(s, c) == Ok(t)
  {
  }

  lemma ExampleStep4(s: State, c: Command, t: State)
    requires s == State([[0, 0], [1, 0], [1, 2], [0, 0]], Coord(1, 1)) && c == Command(Up, 1, true, 9)
    requires t == State([[0, 9], [1, 0], [1, 2], [0, 0]], Coord(1, 0))
    ensures Step(s, c) == Ok(t)
  {
    Update(s.grid, 1, 0, 9, t.grid, 2);
  }

  lemma ExampleText(g: Grid)
    requires g == [[0, 9], [1, 0], [1, 2], [0, 0]]
    ensures RowTexts(g) == ["09", "10", "12", "00"]
  {
    assert HexString(0) == "0" && HexString(1) == "1" && HexString(2) == "2" && HexString(9) == "9";
    assert RowText([0, 9]) == "09";
    assert RowText([1, 0]) == "10";
    assert RowText([1, 2]) == "12";
    assert RowText([0, 0]) == "00";
  }

  // ---------------------------------------------------------------------------
  // The text form of a drawing, and reading it back
  // ---------------------------------------------------------------------------

  function CommandLines(cmds: seq<Command>): seq<string> {
    seq(|cmds|, i requires 0 <= i < |cmds| => CommandText(cmds[i]))
  }

  /** Drawing.toString line by line: height, width, the background in hex, then
      one line per command in order; none of them holds a line break. */
  function DrawingLines(d: DrawingData): (r: seq<string>)
    ensures |r| == 3 + |d.commands|
    ensures forall i | 0 <= i < |r| :: NoLineBreak(r[i])
  {
    [Decimal(d.height), Decimal(d.width), HexString(d.background)] + CommandLines(d.commands)
  }

  /** Why Drawing(String) gives up on the lines it read. */
  datatype DrawingError =
    | BadHeight
    | BadWidth
    | BadBackground
    | BadCommandLine(text: string, error: ParseError)

  /** The command lines, each parsed in order; the first bad one stops the reading. */
  function ParseCommands(lines: seq<string>): (r: Result<seq<Command>, DrawingError>)
    ensures r.Err? ==> r.error.BadCommandLine?
  {
    if lines == [] then Ok([])
    else
      match ParseCommand(lines[0])
      case Err(e) => Err(BadCommandLine(lines[0], e))
      case Ok(c) =>
        match ParseCommands(lines[1..])
        case Err(e) => Err(e)
        case Ok(rest) => Ok([c] + rest)
  }

  /** The lines parse exactly when each of them does, to their commands in order;
      otherwise the error names the first line that does not. */
  lemma {:induction false} ParseCommandsSpec(lines: seq<string>)
    ensures ParseCommands(lines).Ok? <==> forall i | 0 <= i < |lines| :: ParseCommand(lines[i]).Ok?
    ensures ParseCommands(lines).Ok? ==> (|ParseCommands(lines).value| == |lines| &&
      forall i | 0 <= i < |lines| :: ParseCommand(lines[i]) == Ok(ParseCommands(lines).value[i]))
    ensures ParseCommands(lines).Err? ==> exists i | 0 <= i < |lines| :: (
      && (forall j | 0 <= j < i :: ParseCommand(lines[j]).Ok?)
      && ParseCommand(lines[i]).Err?
      && ParseCommands(lines).error == BadCommandLine(lines[i], ParseCommand(lines[i]).error))
  {
    if lines != [] {
      var tail := lines[1..];
      ParseCommandsSpec(tail);
      assert forall i | 1 <= i < |lines| :: lines[i] == tail[i - 1];
      if ParseCommand(lines[0]).Ok? && ParseCommands(tail).Err? {
        ParseCommandsLaterError(lines);
      }
    }
  }

  /** The error step of ParseCommandsSpec: when the first line parses, the first
      bad line of the rest is the first bad line of all. */
  lemma ParseCommandsLaterError(lines: seq<string>)
    requires lines != [] && ParseCommand(lines[0]).Ok?
    requires exists i | 0 <= i < |lines| - 1 :: (
      && (forall j | 0 <= j < i :: ParseCommand(lines[1..][j]).Ok?)
      && ParseCommand(lines[1..][i]).Err?
      && ParseCommands(lines[1..]).Err?
      && ParseCommands(lines[1..]).error == BadCommandLine(lines[1..][i], ParseCommand(lines[1..][i]).error))
    ensures ParseCommands(lines).Err?
    ensures exists i | 0 <= i < |lines| :: (
      && (forall j | 0 <= j < i :: ParseCommand(lines[j]).Ok?)
      && ParseCommand(lines[i]).Err?
      && ParseCommands(lines).error == BadCommandLine(lines[i], ParseCommand(lines[i]).error))
  {
    var tail := lines[1..];
    var i :| 0 <= i < |tail| && (forall j | 0 <= j < i :: ParseCommand(tail[j]).Ok?) &&
      ParseCommand(tail[i]).Err? && ParseCommands(tail).Err? &&
      ParseCommands(tail).error == BadCommandLine(tail[i], ParseCommand(tail[i]).error);
    forall j | 0 <= j < i + 1
      ensures ParseCommand(lines[j]).Ok?
    {
      if j > 0 {
        assert lines[j] == tail[j - 1];
      }
    }
    assert lines[i + 1] == tail[i];
  }

  /** `cmds` followed by the commands of r, unless r is an error. */
  function Prepend(cmds: seq<Command>, r: Result<seq<Command>, DrawingError>): Result<seq<Command>, DrawingError> {
    match r
    case Err(e) => Err(e)
    case Ok(rest) => Ok(cmds + rest)
  }

  lemma PrependAssoc(cmds: seq<Command>, c: Command, r: Result<seq<Command>, DrawingError>)
    ensures Prepend(cmds, Prepend([c], r)) == Prepend(cmds + [c], r)
  {
    if r.Ok? {
      assert cmds + ([c] + r.value) == cmds + [c] + r.value;
    }
  }

  lemma ParseCommandsHead(lines: seq<string>)
    requires lines != []
    ensures ParseCommands(lines) ==
      match ParseCommand(lines[0])
      case Err(e) => Err(BadCommandLine(lines[0], e))
      case Ok(c) => Prepend([c], ParseCommands(lines[1..]))
  {
  }

  /** Line k exists and holds an int in the given base. */
  predicate HeaderLine(lines: seq<string>, k: nat, base: nat) {
    k < |lines| && ParseInt(lines[k], base).Some?
  }

  /** Drawing(String) on the lines of the file: a decimal height and width and a hex
      background on the first three lines (a missing line fails like a bad one),
      then one command per line. */
  function ParseDrawing(lines: seq<string>): (r: Result<DrawingData, DrawingError>)
    ensures r == Err(BadHeight) <==> !HeaderLine(lines, 0, 10)
    ensures r == Err(BadWidth) <==> HeaderLine(lines, 0, 10) && !HeaderLine(lines, 1, 10)
    ensures r == Err(BadBackground) <==>
      HeaderLine(lines, 0, 10) && HeaderLine(lines, 1, 10) && !HeaderLine(lines, 2, 16)
    ensures r.Ok? ==> (
      && ParseInt(lines[0], 10) == Some(r.value.height)
      && ParseInt(lines[1], 10) == Some(r.value.width)
      && ParseInt(lines[2], 16) == Some(r.value.background)
      && ParseCommands(lines[3..]) == Ok(r.value.commands))
    ensures r.Err? && r.error.BadCommandLine? ==> |lines| >= 3 && ParseCommands(lines[3..]) == Err(r.error)
  {
    if !HeaderLine(lines, 0, 10) then Err(BadHeight)
    else if !HeaderLine(lines, 1, 10) then Err(BadWidth)
    else if !HeaderLine(lines, 2, 16) then Err(BadBackground)
    else
      match ParseCommands(lines[3..])
      case Err(e) => Err(e)
      case Ok(cmds) =>
        Ok(DrawingData(ParseInt(lines[0], 10).value, ParseInt(lines[1], 10).value,
                       ParseInt(lines[2], 16).value, cmds))
  }

  lemma {:induction false} ParseCommandLines(cmds: seq<Command>)
    requires forall i | 0 <= i < |cmds| :: WellFormed(cmds[i])
    ensures ParseCommands(CommandLines(cmds)) == Ok(cmds)
  {
    if cmds != [] {
      ParseCommandLines(cmds[1..]);
      ParseCommandLinesStep(cmds);
    } else {
      assert CommandLines(cmds) == [];
    }
  }

  lemma ParseCommandLinesStep(cmds: seq<Command>)
    requires cmds != [] && WellFormed(cmds[0])
    requires ParseCommands(CommandLines(cmds[1..])) == Ok(cmds[1..])
    ensures ParseCommands(CommandLines(cmds)) == Ok(cmds)
  {
    var lines := CommandLines(cmds);
    assert lines[1..] == CommandLines(cmds[1..]);
    assert lines[0] == CommandText(cmds[0]);
    WellFormedRoundTrip(cmds[0]);
    ParseCommandsHead(lines);
    assert [cmds[0]] + cmds[1..] == cmds;
  }

  /** Reading back the text of a drawing whose background is not negative (the
      printed form of a negative one, eight hex digits, is beyond parseInt) and whose
      commands are as the parser makes them gives back the same drawing. */
  lemma DrawingRoundTrip(d: DrawingData)
    requires d.background >= 0
    requires forall i | 0 <= i < |d.commands| :: WellFormed(d.commands[i])
    ensures ParseDrawing(ReadLines(JoinLines(DrawingLines(d)))) == Ok(d)
  {
    var lines := DrawingLines(d);
    assert ReadLines(JoinLines(lines)) == lines by {
      ReadJoinLines(lines);
    }
    DecimalRoundTrip(d.height);
    DecimalRoundTrip(d.width);
    HexStringRoundTrip(d.background);
    ParseCommandLines(d.commands);
    assert lines[3..] == CommandLines(d.commands);
  }

  // ---------------------------------------------------------------------------
  // The Drawing object
  // ---------------------------------------------------------------------------

  class Drawing {
    var height: int32
    var width: int32
    var background: int32
    var commands: seq<Command>

    function Value(): DrawingData
      reads this
    {
      DrawingData(height, width, background, commands)
    }

    /** Drawing(h, w, b): an empty drawing; the Java code asserts that b is a colour. */
    constructor (h: int32, w: int32, b: int32)
      requires 0 <= b <= 15
      ensures Value() == DrawingData(h, w, b, [])
    {
      height, width, background, commands := h, w, b, [];
    }

    /** The header part of Drawing(String): the three numbers, not yet any command. */
    constructor FromHeader(h: int32, w: int32, b: int32)
      ensures Value() == DrawingData(h, w, b, [])
    {
      height, width, background, commands := h, w, b, [];
    }

    /** addCommand(c) */
    method AddCommand(c: Command)
      modifies this
      ensures commands == old(commands) + [c]
      ensures Value() == old(Value()).(commands := commands)
    {
      commands := commands + [c];
    }

    /** toString(): its lines are height, width, the hex background and one line per
        command, in order. */
    function ToString(): (s: string)
      reads this
      ensures ReadLines(s) == DrawingLines(Value())
    {
      ReadJoinLines(DrawingLines(Value()));
      JoinLines(DrawingLines(Value()))
    }

    /** draw(): replays the commands, from the cursor at (0,0) on a fresh
        height-by-width image filled with the background. */
    method Draw() returns (r: Result<Image, BadCommand>)
      requires height >= 0 && width >= 0
      ensures match Execute(Value())
        case Ok(g) => r.Ok? && r.value.Rows() == g
        case Err(e) => r == Err(e)
    {
      var cursor := Coord(0, 0);
      var image := new Image(height, width, background);
      ghost var start := State(image.Rows(), cursor);
      assert start == Start(Value());
      var k := 0;
      while k < |commands|
        invariant 0 <= k <= |commands|
        invariant fresh(image.pixels)
        invariant Run(start, commands) == Run(State(image.Rows(), cursor), commands[k..])
      {
        RunHead(State(image.Rows(), cursor), commands, k);
        var err;
        cursor, err := Perform(image, cursor, commands[k]);
        if err.Some? {
          return Err(err.value);
        }
        k := k + 1;
      }
      assert commands[k..] == [];
      return Ok(image);
    }
  }

  /** One pass of the loop over the commands in draw(): the cursor of the image
      moves, and the cells passed are painted when the command paints; a cell
      outside the image stops it with BadCommand. */
  method Perform(image: Image, cursor: Coord, command: Command) returns (next: Coord, err: Option<BadCommand>)
    modifies image.pixels
    ensures match Step(State(old(image.Rows()), cursor), command)
      case Err(e) => err == Some(e)
      case Ok(t) => err == None && image.Rows() == t.grid && next == t.cursor
  {
    next := cursor;
    err := None;
    if command.distance == 0 {
      if command.paint {
        err := image.Set(cursor.x, cursor.y, command.colour);
      }
      return;
    }
    var newCursor;
    newCursor, err := Walk(image, cursor, command);
    if err.None? {
      OnAxis(cursor, command.dir, Steps(command));
      if Vertical(command.dir) {
        next := cursor.(y := newCursor.y);
      } else {
        next := cursor.(x := newCursor.x);
      }
    }
  }

  /** The inner loop of draw() for a command of non-zero distance: `newCursor` takes
      the command's steps one at a time, and each new cell is painted when the command
      paints. */
  method Walk(image: Image, cursor: Coord, command: Command) returns (newCursor: Coord, err: Option<BadCommand>)
    requires command.distance != 0
    modifies image.pixels
    ensures match Step(State(old(image.Rows()), cursor), command)
      case Err(e) => err == Some(e)
      case Ok(t) => err == None && image.Rows() == t.grid && newCursor == t.cursor
  {
    ghost var before := State(image.Rows(), cursor);
    newCursor := cursor;
    err := None;
    ghost var n := Steps(command);
    ghost var grid := before.grid;
    var i := 0;
    while i < command.distance
      invariant 0 <= i <= n
      invariant err == None
      invariant image.pixels == old(image.pixels)
      invariant grid == image.Rows()
      invariant newCursor == Offset(cursor, command.dir, i)
      invariant command.paint ==>
        Paint(before.grid, cursor, command.dir, n, command.colour) ==
        Paint(grid, newCursor, command.dir, n - i, command.colour)
      invariant !command.paint ==> grid == before.grid
    {
      ghost var previous := newCursor;
      newCursor, err := StepCursor(image, cursor, newCursor, command, i);
      if command.paint {
        ghost var cell := SetCell(grid, newCursor.x, newCursor.y, command.colour);
        PaintStep(before.grid, cursor, command.dir, n, command.colour, grid, previous, i, newCursor, cell);
        if err.Some? {
          WalkFails(before, command, err.value);
          return;
        }
        grid := cell.value;
      }
      i := i + 1;
    }
    WalkDone(before, command, grid);
  }

  /** One pass of a direction's inner loop: newCursor moves one cell along the
      command, and a painting command sets the new cell, taking its other
      coordinate from `cursor`, which has not moved. */
  method StepCursor(image: Image, cursor: Coord, newCursor: Coord, command: Command, ghost i: int)
    returns (next: Coord, err: Option<BadCommand>)
    requires newCursor == Offset(cursor, command.dir, i)
    modifies image.pixels
    ensures next == Next(newCursor, command.dir) && next == Offset(cursor, command.dir, i + 1)
    ensures command.paint ==>
      SetCell(old(image.Rows()), next.x, next.y, command.colour) == if err.None? then Ok(image.Rows()) else Err(err.value)
    ensures !command.paint ==> err == None && unchanged(image.pixels)
  {
    OffsetNext(cursor, command.dir, i);
    next := Next(newCursor, command.dir);
    OnAxis(cursor, command.dir, i + 1);
    err := None;
    if command.paint {
      if Vertical(command.dir) {
        assert cursor.x == next.x;
        err := image.Set(cursor.x, next.y, command.colour);
      } else {
        assert cursor.y == next.y;
        err := image.Set(next.x, cursor.y, command.colour);
      }
    }
  }

  /** The run from the k-th command on: that command, then the rest. */
  lemma RunHead(s: State, cmds: seq<Command>, k: int)
    requires 0 <= k < |cmds|
    ensures Run(s, cmds[k..]) == match Step(s, cmds[k]) case Err(e) => Err(e) case Ok(t) => Run(t, cmds[k + 1..])
  {
    assert cmds[k..][0] == cmds[k];
    assert cmds[k..][1..] == cmds[k + 1..];
  }

  /** One more step of a walk that has reached `at` after i of its n steps. */
  lemma PaintStep(g: Grid, start: Coord, dir: Direction, n: nat, colour: int32, h: Grid, at: Coord, i: nat,
                  p: Coord, cell: Result<Grid, BadCommand>)
    requires i < n && Paint(g, start, dir, n, colour) == Paint(h, at, dir, n - i, colour)
    requires p == Next(at, dir) && cell == SetCell(h, p.x, p.y, colour)
    ensures cell.Err? ==> Paint(g, start, dir, n, colour) == Err(cell.error)
    ensures cell.Ok? ==> Paint(g, start, dir, n, colour) == Paint(cell.value, p, dir, n - (i + 1), colour)
  {
  }

  /** A vertical move keeps the column, a horizontal one the row. */
  lemma OnAxis(c: Coord, dir: Direction, n: int)
    ensures Vertical(dir) ==> Offset(c, dir, n).x == c.x
    ensures !Vertical(dir) ==> Offset(c, dir, n).y == c.y
  {
  }

  lemma WalkFails(s: State, c: Command, e: BadCommand)
    requires c.distance != 0 && c.paint
    requires Paint(s.grid, s.cursor, c.dir, Steps(c), c.colour) == Err(e)
    ensures Step(s, c) == Err(e)
  {
  }

  lemma WalkDone(s: State, c: Command, g: Grid)
    requires c.distance != 0
    requires c.paint ==> Paint(s.grid, s.cursor, c.dir, Steps(c), c.colour) == Ok(g)
    requires !c.paint ==> g == s.grid
    ensures Step(s, c) == Ok(State(g, Offset(s.cursor, c.dir, Steps(c))))
  {
  }

  /** One pass of the command loop of Drawing(String): the next line either adds its
      command, or is the line whose error ends the reading. */
  lemma LoadStep(all: Result<seq<Command>, DrawingError>, cmds: seq<Command>, rest: seq<string>)
    requires rest != []
    requires all == Prepend(cmds, ParseCommands(rest))
    ensures match ParseCommand(rest[0])
      case Ok(c) => all == Prepend(cmds + [c], ParseCommands(rest[1..]))
      case Err(e) => all == Err(BadCommandLine(rest[0], e))
  {
    ParseCommandsHead(rest);
    if ParseCommand(rest[0]).Ok? {
      PrependAssoc(cmds, ParseCommand(rest[0]).value, ParseCommands(rest[1..]));
    }
  }

  /** The command loop of Drawing(String): each line from the fourth on is parsed and
      its command added, in order, until a line does not parse. */
  method AddCommands(drawing: Drawing, lines: seq<string>) returns (err: Option<DrawingError>)
    modifies drawing
    ensures match ParseCommands(lines)
      case Ok(cs) => err == None && drawing.Value() == old(drawing.Value()).(commands := old(drawing.commands) + cs)
      case Err(e) => err == Some(e)
  {
    ghost var all := ParseCommands(lines);
    if all.Ok? {
      assert [] + all.value == all.value;
    }
    assert all == Prepend([], all);
    ghost var done: seq<Command> := [];
    var rest := lines;
    while rest != []
      invariant drawing.Value() == old(drawing.Value()).(commands := old(drawing.commands) + done)
      invariant all == Prepend(done, ParseCommands(rest))
    {
      var parsed := ParseCommand(rest[0]);
      LoadStep(all, done, rest);
      if parsed.Err? {
        return Some(BadCommandLine(rest[0], parsed.error));
      }
      drawing.AddCommand(parsed.value);
      done := done + [parsed.value];
      rest := rest[1..];
    }
    assert done + [] == done;
    return None;
  }

  /** Drawing(String) over the lines already read: the header, then each command line
      parsed and added in order; the first bad line is reported instead of exiting. */
  method Load(lines: seq<string>) returns (r: Result<Drawing, DrawingError>)
    ensures match ParseDrawing(lines)
      case Ok(d) => r.Ok? && r.value.Value() == d
      case Err(e) => r == Err(e)
  {
    if !HeaderLine(lines, 0, 10) {
      return Err(BadHeight);
    }
    if !HeaderLine(lines, 1, 10) {
      return Err(BadWidth);
    }
    if !HeaderLine(lines, 2, 16) {
      return Err(BadBackground);
    }
    var drawing := new Drawing.FromHeader(ParseInt(lines[0], 10).value, ParseInt(lines[1], 10).value,
                                          ParseInt(lines[2], 16).value);
    var err := AddCommands(drawing, lines[3..]);
    if err.Some? {
      return Err(err.value);
    }
    return Ok(drawing);
  }
}
