/** Image.java: a rectangular raster of colour numbers, its fill constructor,
    bounds-checked `set`, `getColor`, the hex text form `toString`, and the
    validation that the file constructor applies to the lines it has read. */
module Images {
  import opened Wrappers
  import opened Int32
  import opened Text

  /** A cell position (the Coordinate class): x is the column, y the row, and
      (0,0) is the top-left corner. */
  datatype Coord = Coord(x: int32, y: int32)

  /** The exception BadCommand(x, y) of Drawing.java, which `set` throws. */
  datatype BadCommand = BadCommand(x: int32, y: int32)

  /** The abstract value of the `pixels` array: Grid[y][x] is the colour at (x, y). */
  type Grid = seq<seq<int32>>

  /** h rows of w cells each. */
  predicate IsRaster(g: Grid, h: nat, w: nat) {
    |g| == h && forall y | 0 <= y < |g| :: |g[y]| == w
  }

  /** `pixels[y][x]` exists. */
  predicate InBounds(g: Grid, x: int, y: int) {
    0 <= y < |g| && 0 <= x < |g[y]|
  }

  /** Every cell holds one of the 16 colours. */
  predicate InPalette(g: Grid) {
    forall y, x | 0 <= y < |g| && 0 <= x < |g[y]| :: 0 <= g[y][x] <= 15
  }

  /** The raster that the fill constructor builds. */
  function Blank(h: nat, w: nat, colour: int32): (g: Grid)
    ensures IsRaster(g, h, w)
    ensures forall y, x | 0 <= y < h && 0 <= x < w :: g[y][x] == colour
  {
    seq(h, _ => seq(w, _ => colour))
  }

  /** `set` on the abstract value: the one cell changes, or BadCommand(x, y) when
      the cell does not exist. */
  function SetCell(g: Grid, x: int32, y: int32, colour: int32): (r: Result<Grid, BadCommand>)
    ensures r.Ok? <==> InBounds(g, x, y)
    ensures r.Err? ==> r.error == BadCommand(x, y)
    ensures r.Ok? ==> |r.value| == |g| && forall i | 0 <= i < |g| :: |r.value[i]| == |g[i]|
    ensures r.Ok? ==> forall i, j | 0 <= i < |g| && 0 <= j < |g[i]| ::
      r.value[i][j] == if i == y && j == x then colour else g[i][j]
  {
    if InBounds(g, x, y) then
      var row: seq<int32> := g[y][x := colour];
      Ok(g[y := row])
    else Err(BadCommand(x, y))
  }

  // ---------------------------------------------------------------------------
  // toString: one line per row, one hex digit per pixel, each line ending in "\n"
  // ---------------------------------------------------------------------------

  /** The text of one row: `Integer.toHexString` of each pixel. */
  function RowText(row: seq<int32>): (s: string)
    ensures NoLineBreak(s)
    ensures |s| >= |row|
  {
    if row == [] then [] else HexString(row[0]) + RowText(row[1..])
  }

  function RowTexts(g: Grid): seq<string> {
    seq(|g|, i requires 0 <= i < |g| => RowText(g[i]))
  }

  /** The string `toString` builds: reading it back line by line gives the text of
      each row. */
  function Render(g: Grid): (s: string)
    ensures ReadLines(s) == RowTexts(g)
  {
    ReadJoinLines(RowTexts(g));
    JoinLines(RowTexts(g))
  }

  /** In the 16-colour palette every pixel prints as exactly one character,
      the hex digit of its colour. */
  lemma {:induction false} RowTextOfPalette(row: seq<int32>)
    requires forall i | 0 <= i < |row| :: 0 <= row[i] <= 15
    ensures |RowText(row)| == |row|
    ensures forall i | 0 <= i < |row| :: RowText(row)[i] == DigitChar(row[i])
  {
    if row != [] {
      HexDigitText(row[0]);
      RowTextOfPalette(row[1..]);
    }
  }

  lemma {:induction false} JoinLinesLength(lines: seq<string>, w: nat)
    requires forall k | 0 <= k < |lines| :: |lines[k]| == w
    ensures |JoinLines(lines)| == |lines| * (w + 1)
  {
    if lines != [] {
      JoinLinesLength(lines[1..], w);
      assert |JoinLines(lines)| == (w + 1) + (|lines| - 1) * (w + 1);
    }
  }

  /** The text of an h-by-w palette image is h*(w+1) characters long: w digits and a
      newline per row. */
  lemma RenderLength(g: Grid, h: nat, w: nat)
    requires IsRaster(g, h, w) && InPalette(g)
    ensures |Render(g)| == h * (w + 1)
  {
    forall k | 0 <= k < |g|
      ensures |RowTexts(g)[k]| == w
    {
      RowTextOfPalette(g[k]);
    }
    JoinLinesLength(RowTexts(g), w);
  }

  // ---------------------------------------------------------------------------
  // The line validation of the file constructor Image(String)
  // ---------------------------------------------------------------------------

  /** Why a list of lines is not an image; `line` counts from 1 as the messages do. */
  datatype LoadError =
    | EmptyFile
    | InconsistentLength(expected: nat, found: nat, line: nat)
    | InvalidContents(c: char, line: nat)

  /** A character whose numeric value is a colour. */
  predicate IsPixelChar(c: char) {
    0 <= NumericValue(c) <= 15
  }

  /** The position of the first character of a line that is not a pixel, or the
      line's length when there is none. */
  function FirstBadChar(line: string): (k: nat)
    ensures k <= |line|
    ensures forall j | 0 <= j < k :: IsPixelChar(line[j])
    ensures k < |line| ==> !IsPixelChar(line[k])
  {
    if line == [] || !IsPixelChar(line[0]) then 0
    else
      var k := 1 + FirstBadChar(line[1..]);
      assert forall j | 1 <= j < k :: line[j] == line[1..][j - 1];
      k
  }

  /** Converts one line, stopping at the first character outside 0..15. */
  function LoadRow(line: string, lineNo: nat): (r: Result<seq<int32>, LoadError>)
    ensures r.Ok? <==> forall j | 0 <= j < |line| :: IsPixelChar(line[j])
    ensures r.Ok? ==> (|r.value| == |line| &&
      forall j | 0 <= j < |line| :: r.value[j] == NumericValue(line[j]))
    ensures r.Ok? ==> forall j | 0 <= j < |line| :: 0 <= r.value[j] <= 15
    ensures r.Err? ==> (FirstBadChar(line) < |line| &&
      r.error == InvalidContents(line[FirstBadChar(line)], lineNo))
  {
    if line == [] then Ok([])
    else
      var v := NumericValue(line[0]);
      if v < 0 || v > 15 then Err(InvalidContents(line[0], lineNo))
      else
        match LoadRow(line[1..], lineNo)
        case Err(e) => Err(e)
        case Ok(rest) =>
          assert forall j | 1 <= j < |line| :: line[j] == line[1..][j - 1];
          Ok([v as int32] + rest)
  }

  /** A line of the expected length made of pixel characters. */
  predicate LineFits(line: string, length: nat) {
    |line| == length && forall j | 0 <= j < |line| :: IsPixelChar(line[j])
  }

  /** The first line from `from` on that does not fit, or |lines| when all do. */
  function FirstBadLine(lines: seq<string>, length: nat, from: nat): (i: nat)
    requires from <= |lines|
    ensures from <= i <= |lines|
    ensures forall k | from <= k < i :: LineFits(lines[k], length)
    ensures i < |lines| ==> !LineFits(lines[i], length)
    decreases |lines| - from
  {
    if from == |lines| || !LineFits(lines[from], length) then from
    else FirstBadLine(lines, length, from + 1)
  }

  /** The message the Java loop prints for the first line that does not fit: the
      length is compared before the characters are read, and lines count from 1. */
  predicate ReportsFirstBadLine(lines: seq<string>, length: nat, from: nat, e: LoadError)
    requires from <= |lines|
  {
    var i := FirstBadLine(lines, length, from);
    && i < |lines|
    && (|lines[i]| != length ==> e == InconsistentLength(length, |lines[i]|, i + 1))
    && (|lines[i]| == length ==>
          FirstBadChar(lines[i]) < |lines[i]| && e == InvalidContents(lines[i][FirstBadChar(lines[i])], i + 1))
  }

  /** Lines `from` onward (numbered from `from + 1`), each checked for its length
      against the first line's and then converted, in order. */
  function LoadRows(lines: seq<string>, length: nat, from: nat): (r: Result<Grid, LoadError>)
    requires from <= |lines|
    ensures r.Ok? <==> forall i | from <= i < |lines| ::
      |lines[i]| == length && forall j | 0 <= j < |lines[i]| :: IsPixelChar(lines[i][j])
    ensures r.Ok? ==> (IsRaster(r.value, |lines| - from, length) &&
      forall i, j | from <= i < |lines| && 0 <= j < length :: r.value[i - from][j] == NumericValue(lines[i][j]))
    ensures r.Ok? ==> InPalette(r.value)
    ensures r.Err? ==> ReportsFirstBadLine(lines, length, from, r.error)
    decreases |lines| - from
  {
    if from == |lines| then Ok([])
    else if |lines[from]| != length then Err(InconsistentLength(length, |lines[from]|, from + 1))
    else
      match LoadRow(lines[from], from + 1)
      case Err(e) => Err(e)
      case Ok(row) =>
        match LoadRows(lines, length, from + 1)
        case Err(e) => Err(e)
        case Ok(rest) => Ok([row] + rest)
  }

  /** What `Image(String)` makes of the lines it read: the pixels, or the reason it
      stops (an empty file, a line whose length differs from the first line's, or a
      character whose numeric value is outside 0..15). */
  function LoadPixels(lines: seq<string>): (r: Result<Grid, LoadError>)
    ensures r == Err(EmptyFile) <==> lines == []
    ensures r.Ok? <==> (lines != [] &&
      (forall i | 0 <= i < |lines| :: |lines[i]| == |lines[0]|) &&
      (forall i, j | 0 <= i < |lines| && 0 <= j < |lines[i]| :: IsPixelChar(lines[i][j])))
    ensures r.Ok? ==> (IsRaster(r.value, |lines|, |lines[0]|) && InPalette(r.value) &&
      forall i, j | 0 <= i < |lines| && 0 <= j < |lines[i]| :: r.value[i][j] == NumericValue(lines[i][j]))
    ensures r.Err? && lines != [] ==> ReportsFirstBadLine(lines, |lines[0]|, 0, r.error)
  {
    if |lines| == 0 then Err(EmptyFile) else LoadRows(lines, |lines[0]|, 0)
  }

  /** The loader gets back the pixels from the text `toString` prints, the
      "original text-based representation". */
  lemma LoadRenderRoundTrip(g: Grid, h: nat, w: nat)
    requires IsRaster(g, h, w) && h >= 1 && InPalette(g)
    ensures LoadPixels(ReadLines(Render(g))) == Ok(g)
  {
    var lines := RowTexts(g);
    ReadJoinLines(lines);
    forall i | 0 <= i < h
      ensures |lines[i]| == w
      ensures forall j | 0 <= j < w :: IsPixelChar(lines[i][j]) && NumericValue(lines[i][j]) == g[i][j]
    {
      RowTextOfPalette(g[i]);
      forall j | 0 <= j < w
        ensures IsPixelChar(lines[i][j]) && NumericValue(lines[i][j]) == g[i][j]
      {
        NumericValueOfDigit(g[i][j]);
      }
    }
    var r := LoadPixels(lines);
    assert r.Ok?;
    assert forall i | 0 <= i < h :: r.value[i] == g[i];
    assert r.value == g;
    assert ReadLines(Render(g)) == lines;
  }

  // ---------------------------------------------------------------------------
  // The Image object
  // ---------------------------------------------------------------------------

  class Image {
    /** pixels[y, x] is the colour at column x of row y. */
    var pixels: array2<int32>

    /** The pixels row by row. */
    function Rows(): (g: Grid)
      reads this, pixels
      ensures IsRaster(g, pixels.Length0, pixels.Length1)
      ensures forall y, x | 0 <= y < pixels.Length0 && 0 <= x < pixels.Length1 :: g[y][x] == pixels[y, x]
    {
      var a := pixels;
      seq(a.Length0, y requires 0 <= y < a.Length0 reads a =>
        seq(a.Length1, x requires 0 <= x < a.Length1 reads a => a[y, x]))
    }

    /** Image(height, width, colour): a solid image. */
    constructor (height: nat, width: nat, colour: int32)
      ensures fresh(pixels)
      ensures pixels.Length0 == height && pixels.Length1 == width
      ensures Rows() == Blank(height, width, colour)
    {
      var a := new int32[height, width];
      for i := 0 to height
        invariant forall y, x | 0 <= y < i && 0 <= x < width :: a[y, x] == colour
      {
        for j := 0 to width
          invariant forall y, x | 0 <= y < i && 0 <= x < width :: a[y, x] == colour
          invariant forall x | 0 <= x < j :: a[i, x] == colour
        {
          a[i, j] := colour;
        }
      }
      pixels := a;
      new;
      assert forall y | 0 <= y < height :: Rows()[y] == Blank(height, width, colour)[y];
    }

    /** set(x, y, colour): writes the cell when it exists, otherwise reports
        BadCommand(x, y) and leaves the image as it was. */
    method Set(x: int32, y: int32, colour: int32) returns (err: Option<BadCommand>)
      modifies pixels
      ensures SetCell(old(Rows()), x, y, colour) == if err.None? then Ok(Rows()) else Err(err.value)
      ensures 0 <= y < pixels.Length0 && 0 <= x < pixels.Length1 ==>
        err == None && pixels[y, x] == colour &&
        forall i, j | 0 <= i < pixels.Length0 && 0 <= j < pixels.Length1 && (i != y || j != x) ::
          pixels[i, j] == old(pixels[i, j])
      ensures !(0 <= y < pixels.Length0 && 0 <= x < pixels.Length1) ==>
        err == Some(BadCommand(x, y)) && unchanged(pixels)
    {
      if 0 <= y < pixels.Length0 && 0 <= x < pixels.Length1 {
        ghost var before := Rows();
        ghost var row: seq<int32> := before[y][x := colour];
        ghost var after: Grid := before[y := row];
        pixels[y, x] := colour;
        err := None;
        assert forall i | 0 <= i < pixels.Length0 :: Rows()[i] == after[i];
        assert Rows() == after;
      } else {
        err := Some(BadCommand(x, y));
      }
    }

    /** getColor(x, y) */
    function GetColor(x: int32, y: int32): (c: int32)
      reads this, pixels
      requires 0 <= y < pixels.Length0 && 0 <= x < pixels.Length1
      ensures c == Rows()[y][x]
    {
      pixels[y, x]
    }

    /** getColor(Coordinate), which delegates to getColor(c.x, c.y). */
    function GetColorAt(c: Coord): (r: int32)
      reads this, pixels
      requires 0 <= c.y < pixels.Length0 && 0 <= c.x < pixels.Length1
      ensures r == Rows()[c.y][c.x]
    {
      GetColor(c.x, c.y)
    }

    /** toString(): reading its lines back gives one hex line per row; for a palette
        image it is height*(width+1) characters long.  An image without rows has no
        `pixels[0]`, which the Java code reads first. */
    function ToString(): (s: string)
      reads this, pixels
      requires pixels.Length0 > 0
      ensures s == Render(Rows())
      ensures ReadLines(s) == RowTexts(Rows())
      ensures InPalette(Rows()) ==> |s| == pixels.Length0 * (pixels.Length1 + 1)
    {
      var g := Rows();
      if InPalette(g) then RenderLength(g, pixels.Length0, pixels.Length1); Render(g)
      else Render(g)
    }
  }
}
