# Image ⇄ drawing commands, in Dafny

This project models the three Java classes of a small image-compression
exercise, and proves properties of that model:

- `Image` (Image.java) is a rectangle of pixels, each one of 16 colours.
- `Drawing` (Drawing.java) is a height, a width, a background colour and a list
  of `DrawingCommand`s. Each command says which way to go (`up`, `down`, `left`,
  `right`), how far, and whether to paint the cells it passes, and in which colour.
- `Compressor` (Compressor.java) turns an image into a drawing.

Modules, one per concern:

| module | file | contents |
|---|---|---|
| `Wrappers` | wrappers.dfy | `Option` and `Result`. |
| `Int32` | int32.dfy | Java's `int` range, and the two's-complement wrap-around that `++` and `--` perform. |
| `Text` | text.dfy | The Java library calls the text formats depend on: `String.split("\\s")`, `Integer.parseInt`, `Integer.toString`, `Integer.toHexString`, `Character.getNumericValue` and `BufferedReader.readLine`. |
| `Images` | image.dfy | class `Image`, with `pixels` as an `array2<int32>`. Its fill constructor, `set`, `getColor` and `toString`, plus the line validation of the file constructor. |
| `Drawings` | drawing.dfy | The command parser and printer, and class `Drawing`: its constructors, `addCommand`, `toString` and `draw`. The reading of a drawing from its lines. |
| `Compressors` | compressor.dfy | class `Compressor` and its `compress`. |

### How the properties are stated

- **Drawing commands.** The meaning of drawing is a set of pure functions: `Step` for one command, `Run` for a list and `Execute` for a whole drawing.
  - `Drawing.Draw` is an imperative method with the Java loops: a loop over the commands, and per command a loop that moves `newCursor` one cell at a time and calls `Image.Set`. It is proved equal to `Execute`.
  - Lemmas then give the closed form of one command: exactly which cells it paints, where the cursor ends, and at which cell it fails.
- **Parser and printer.** A parse function and a print function are linked by round-trip lemmas, both for one command and for a whole drawing.
- **Compression.** `Compressor.Compress` is an imperative method. Its nested counting loop writes a 16-entry table, and its per-row `while` loops append commands to the `Drawing` one by one. It is proved to produce:
  - the background that `IsBackground` describes;
  - the command list that the function `Encode` describes.

  Lemmas about `Encode` then state the structure of that list: one command per run of equal pixels, serpentine directions, counters that never decrease, one `down 1` between rows, and the total length.

### What the code does, as the model shows it

- **`compress` does not invert `draw`.** The comment at Image.java:116-124 asks for a command list that "exactly" redraws the image. The counter `pCount` of a row is never reset, so the distances grow along the row. A command paints the cells after the cursor, so cell (0,0) keeps the background when the first run of row 0 has two or more cells. `CompressDoesNotRoundTrip` exhibits an image for which the compressed drawing cannot even be drawn:
  - the image is the single row `a a a b b`;
  - its commands are `right 2 a`, then `right 3 b`;
  - the second command paints past the right edge and fails with `BadCommand(5, 0)`.

  This is a property of the code as written. The model proves no correct encoder.
- **Negative distances are accepted.** `Integer.parseInt` accepts a sign, so the parser accepts a negative distance (`NegativeDistanceExample`). `draw` then runs that command's loop zero times (`NegativeDistance`).
- **A negative background does not read back.** `Drawing.toString` prints the background with `Integer.toHexString`. For a negative value that is eight hex digits, which `parseInt(s, 16)` rejects. The round trip `DrawingRoundTrip` therefore requires a non-negative background.

## Model

| member | source | states |
|---|---|---|
| Text.Split | Drawing.java:69 | `split("\\s")`: no piece holds a `\s` character. A string without any match comes back whole, and a non-empty string never yields a trailing empty piece. |
| Text.SplitThree | Drawing.java:69 | Three blank-free words joined by single blanks split back into exactly those three words. |
| Text.SplitTwoTrailing | Drawing.java:69 | Two words followed by a trailing blank split into the two words: `split` drops the trailing empty piece. |
| Text.ParseInt | Drawing.java:90 | `parseInt`: a value is returned only when at least one character follows the optional sign and each of them is a digit of the base. A negative value needs a leading `-`. |
| Text.Decimal | Drawing.java:118 | `Integer.toString`, and the decimal form string concatenation prints: one word, which starts with `-` exactly when the number is negative. |
| Text.SignedHex | Compressor.java:44 | `Integer.toString(n, 16)`: one word, which starts with `-` exactly when the number is negative. |
| Text.HexString | Image.java:110 | `Integer.toHexString`: one word of hex digits, never with a sign. |
| Text.DecimalRoundTrip | Drawing.java:90 | `parseInt` of what `Integer.toString` prints gives back every int, including negative ones. |
| Text.HexStringRoundTrip | Drawing.java:219 | A non-negative int printed by `toHexString` parses back with radix 16. |
| Text.HexDigitText | Drawing.java:101-103 | A colour 0..15 prints as its one lower-case hex digit under both `Integer.toString(n, 16)` and `toHexString`, and that digit parses back to the colour. |
| Text.ReadLines | Drawing.java:225 | The lines `readLine` returns hold no terminator, and a string without a terminator is one line (none when empty). |
| Text.ReadJoinLines | Drawing.java:225 | Reading with `readLine` the lines a `StringBuilder` joined with "\n" gives those lines back, when no line holds a terminator. |
| Text.NumericValue | Image.java:65 | `getNumericValue`: -1 for a character that is not an ASCII digit or letter, otherwise its value 0..35. |
| Text.NumericValueOfDigit | Image.java:65 | `getNumericValue` of a printed hex digit is the digit's value. |
| Images.Blank | Image.java:81-87 | h rows of w cells, every cell the given colour. |
| Images.SetCell | Image.java:168-174 | Succeeds iff (x, y) is inside the raster. On success exactly that cell changes and the shape is kept. Otherwise the result is `BadCommand(x, y)`. |
| Images.Image.constructor | Image.java:81-87 | The two nested loops leave a fresh `height`×`width` array whose every cell is `colour`. |
| Images.Image.Set | Image.java:168-174 | Inside the bounds, `pixels[y][x]` becomes the colour and every other cell is unchanged. Outside, the result is `BadCommand(x, y)` and the array is unchanged. Also states agreement with `SetCell`. |
| Images.Image.GetColor | Image.java:183-186 | Returns the colour at column x of row y. |
| Images.Image.GetColorAt | Image.java:194-197 | `getColor(c)` is the colour at (c.x, c.y), the same as `getColor(c.x, c.y)`. |
| Images.RowText | Image.java:108-110 | The text of a row holds no line break and has at least one character per pixel. |
| Images.RowTextOfPalette | Image.java:108-110 | A row of colours 0..15 prints as one lower-case hex digit per pixel. |
| Images.Render | Image.java:105-114 | Reading back the string `toString` builds, line by line, gives the text of each row. |
| Images.RenderLength | Image.java:105-114 | The text of an h×w palette image is h·(w+1) characters long. |
| Images.Image.ToString | Image.java:105-114 | The string is `Render` of the pixels, so reading it back gives one hex line per row. For a palette image its length is height·(width+1). |
| Images.LoadRow | Image.java:64-70 | A line is accepted iff each of its characters has a numeric value in 0..15. The pixels are then those values. Otherwise the error is `InvalidContents` with the first bad character and the line number. |
| Images.LoadRows | Image.java:56-71 | Lines are accepted iff each has the first line's length and only pixel characters; the result is then a raster of their values, all in 0..15. Otherwise the error is for the first line that fails, numbered from 1: `InconsistentLength` when its length differs, else `InvalidContents` with its first bad character. |
| Images.LoadPixels | Image.java:46-71 | Rejects an empty list of lines. Otherwise it accepts exactly the line lists of equal lengths and valid characters. It then returns a \|lines\|×\|lines[0]\| raster whose pixels are the characters' numeric values, all in 0..15. Otherwise it reports the first line that fails, as `LoadRows` does. |
| Images.LoadRenderRoundTrip | Image.java:100-114 | Loading the lines of `toString` gives back the pixels of every non-empty palette image. |
| Drawings.DirectionName | Drawing.java:12-35 | Each direction prints as one word without blanks or line breaks. |
| Drawings.DirectionNameWord | Drawing.java:12-35 | `ParseDirection` reads each direction's name back to that direction. |
| Drawings.ParseDirection | Drawing.java:76-87 | A direction is recognised exactly when the word is one of the four names, compared case-sensitively. |
| Drawings.ParseCommand | Drawing.java:66-109 | Arity other than 2 or 3 is rejected. A parsed command: paints iff there are 3 words; its direction is named by word 1 and its distance is word 2 as a decimal int; while painting, its colour is word 3 in hex and lies in 0..15. A non-painting command has colour 0. |
| Drawings.ArityExample | Drawing.java:71-74 | A single word is rejected for its arity. |
| Drawings.ColourExample | Drawing.java:100-107 | `right 1 g` is rejected: `g` is not a hex digit. |
| Drawings.BadColourCase | Drawing.java:100-107 | Three words whose direction and distance parse, but whose colour does not, give `BadColour`. |
| Drawings.NegativeDistanceExample | Drawing.java:89-94 | `right -1 3` is accepted, with distance -1. |
| Drawings.HexColourExample | Drawing.java:52-57 | `up 2 c` paints upwards over 2 cells in colour 12. |
| Drawings.MoveExample | Drawing.java:96-97 | `left 3` moves without painting. |
| Drawings.CommandRoundTrip | Drawing.java:66-119 | Parsing `toString` of any command (with a colour in 0..15 when it paints) gives back its direction, distance and paint flag, and its colour when it paints. The non-painting form's trailing blank is dropped. |
| Drawings.WellFormedRoundTrip | Drawing.java:66-119 | A command as the parser makes it survives printing and parsing unchanged. |
| Drawings.CommandText | Drawing.java:116-119 | The text of a command holds no line break. |
| Drawings.OffsetNext | Drawing.java:315-320 | One more `newCursor` step after n steps is the position n+1 steps on, with 32-bit wrap-around. |
| Drawings.OffsetTwice | Drawing.java:315-320 | m steps and then n steps are m+n steps. |
| Drawings.OffsetInjective | Drawing.java:315-345 | Fewer than 2^32 steps never return to a position already passed. |
| Drawings.Paint | Drawing.java:315-345 | A walk keeps the canvas's shape, and can fail only at a cell outside it. |
| Drawings.PaintSpec | Drawing.java:315-345 | A walk of n painted steps succeeds iff all n cells after the start exist. It then paints exactly those cells, keeps the shape and leaves every other cell alone. Otherwise it fails with `BadCommand` at the first missing cell. |
| Drawings.PaintOk | Drawing.java:315-345 | A walk of n painted steps succeeds iff all n cells after the start exist. |
| Drawings.PaintCells | Drawing.java:315-345 | A successful walk paints exactly the cells 1..n after the start. |
| Drawings.PaintError | Drawing.java:315-345 | A failing walk names the first missing cell. |
| Drawings.PaintCommand | Drawing.java:139-145 | A painting command of distance d > 0 succeeds iff the d cells after the cursor exist. It paints exactly those d distinct cells, including the last and never the start. The cursor ends d cells on. Otherwise it fails at the first missing one. |
| Drawings.PaintInPlace | Drawing.java:310-313 | A painting command of distance 0 sets only the cell under the cursor and keeps the cursor. It fails with that cell's `BadCommand` when the cell does not exist. |
| Drawings.MoveCommand | Drawing.java:314-346 | A non-painting command never fails and touches no cell. It moves the cursor by its distance, or not at all when the distance is 0 or negative. |
| Drawings.NegativeDistance | Drawing.java:314-346 | A negative distance changes neither the cursor nor any cell. |
| Drawings.Step | Drawing.java:309-346 | One command keeps the canvas's shape, and can fail only at a cell outside it. |
| Drawings.RunAppend | Drawing.java:309 | Running a + b is running a, then b from where a stopped. The first failure ends the run. |
| Drawings.Run | Drawing.java:304-349 | The canvas keeps its shape, and a run can fail only at a cell outside it. |
| Drawings.Execute | Drawing.java:293-349 | `draw` returns a height×width image, and throws only `BadCommand(x, y)` for an (x, y) outside [0,width)×[0,height). |
| Drawings.ExecuteAfterAdd | Drawing.java:271-274 | Drawing after `addCommand(c)` is drawing the earlier commands, then c. |
| Drawings.WorkedExample | Drawing.java:147-175 | On a 4×2 canvas of 0s, `down 2 1`, `right 1 2`, `up 1`, `up 1 9` give the rows `09`, `10`, `12`, `00`. |
| Drawings.ParseCommandsSpec | Drawing.java:225-227 | The command lines parse iff each line does, to their commands in order. Otherwise the error names the first bad line and its parse error. |
| Drawings.ParseCommandLines | Drawing.java:287-289 | The printed lines of well-formed commands parse back to the same commands. |
| Drawings.DrawingLines | Drawing.java:281-291 | `Drawing.toString` prints 3 + (number of commands) lines, and none of them holds a line break. |
| Drawings.ParseDrawing | Drawing.java:196-234 | The header is read in order: `BadHeight` iff line 1 is missing or not a decimal int; `BadWidth` iff line 1 is fine and line 2 is not; `BadBackground` iff lines 1 and 2 are fine and line 3 is not a hex int. A drawing read holds those three numbers and the commands of the remaining lines; a bad command line is the error of `ParseCommands`. |
| Drawings.DrawingRoundTrip | Drawing.java:196-234 | Reading back the text of a drawing gives back the same drawing, when its background is non-negative and its commands are well formed. |
| Drawings.Drawing.constructor | Drawing.java:243-250 | An empty drawing with the given height, width and background. |
| Drawings.Drawing.FromHeader | Drawing.java:201-223 | The drawing of the three header lines, with no command yet. |
| Drawings.Drawing.AddCommand | Drawing.java:271-274 | The command is appended at the end; nothing else changes. |
| Drawings.Drawing.ToString | Drawing.java:281-291 | Its lines are the height, the width, the hex background, and one line per command in order. |
| Drawings.Drawing.Draw | Drawing.java:304-349 | Starting from a height×width canvas of the background with the cursor at (0,0), it returns the image `Execute` describes. It throws the `BadCommand` that stops `Execute`. |
| Drawings.Perform | Drawing.java:309-346 | One command as the loop body runs it: the new image and cursor are those of `Step`, or its `BadCommand`. The cursor returned is `newCursor`, so the two cursors agree again after each command. |
| Drawings.Walk | Drawing.java:314-345 | The inner loop of a non-zero distance: `newCursor` ends at the position `Step` gives, and the array holds `Step`'s grid. A painted step outside stops it with the same `BadCommand`. |
| Drawings.StepCursor | Drawing.java:316-319 | One pass: `newCursor` moves one cell. When painting, that cell is set with its other coordinate taken from `cursor`, as `SetCell` describes. |
| Drawings.Load | Drawing.java:196-234 | Over the lines already read, it returns the drawing `ParseDrawing` describes (header, then each command line added in order), or the same error. |
| Drawings.AddCommands | Drawing.java:225-227 | The command loop: when every remaining line parses, the drawing gains exactly their commands, appended in order, and its header is unchanged; otherwise it reports the error `ParseCommands` gives, which names the first line that does not parse. |
| Compressors.RowCountMultiset | Compressor.java:22-31 | The count of a colour in a row is its multiplicity in the row. |
| Compressors.GridCountPositive | Compressor.java:22-31 | A colour that occurs in the image is counted at least once. |
| Compressors.CountColours | Compressor.java:19-32 | The nested loop leaves, for each colour 0..15, the number of pixels of that colour. |
| Compressors.MostFrequent | Compressor.java:33 | Returns a colour whose count no other colour exceeds; among equal counts, the lowest. |
| Compressors.IsBackground | Compressor.java:19-33 | Definition of the colour `compress` takes as background: a colour 0..15 that no colour outnumbers, and that each lower colour strictly undercounts. Its properties are `Background`, `BackgroundUnique` and `BackgroundOccurs`. |
| Compressors.Background | Compressor.java:19-33 | The chosen colour satisfies `IsBackground`: no colour has more pixels, and each lower colour has strictly fewer. |
| Compressors.BackgroundUnique | Compressor.java:33 | Only one colour satisfies `IsBackground`. |
| Compressors.BackgroundOccurs | Compressor.java:33 | On a non-empty palette image, the background occurs in the image. |
| Compressors.Scan | Compressor.java:39-63 | Definition of the scan of one row: a run end emits a painting command of distance `pCount` in the cell's colour, any other cell increments `pCount`. Its properties are `ScanRuns` and `ScanShape`. |
| Compressors.RunEndsExact | Compressor.java:43 | The listed positions are exactly the ends of the maximal runs of equal cells, each once, in increasing order. |
| Compressors.LastRunEnd | Compressor.java:43 | The last cell of a row always ends a run. |
| Compressors.ScanRuns | Compressor.java:39-63 | The scan of a row emits one painting command per run end, in the scan direction and in that run's colour. Its distance is the count of earlier cells that end no run. |
| Compressors.ScanShape | Compressor.java:38-63 | Within a row, every command goes the scan's way and paints. Distances are ≥ 0 and never decrease, and the last is the row's number of cells that end no run. |
| Compressors.EncodeRowsDowns | Compressor.java:65-68 | The row scans never go down, so the `down` commands are exactly the links: one after each row but the last. |
| Compressors.RowCommands | Compressor.java:36-63 | Definition of the commands for row y: the scan runs rightwards over an even row and leftwards over an odd one, with `pCount` from 0. `RunsFromCons` states one command per run. |
| Compressors.RunsFromCons | Compressor.java:39-63 | Row y emits exactly one command per run, so the run count of rows y onward is row y's command count plus that of the rows below. |
| Compressors.Link | Compressor.java:65-68 | The command after a row other than the last goes down 1 and paints. On a palette image it is well formed. |
| Compressors.Encode | Compressor.java:36-70 | The number of commands is the sum of the rows' run counts, plus height − 1. Exactly height − 1 of them go down. |
| Compressors.EncodeRowsColours | Compressor.java:44 | Every command emitted from row y on paints, in a colour some pixel of the image has. |
| Compressors.EncodeWellFormed | Compressor.java:67 | On a palette image, every emitted command paints in a colour 0..15, so it is well formed. |
| Compressors.EmittedCommand | Compressor.java:44 | The text `dir + " " + n + " " + Integer.toString(colour, 16)` parses to the painting command it describes. |
| Compressors.NewPaintCommand | Compressor.java:56 | Building a command from its text gives the painting command with that direction, distance and colour. |
| Compressors.EmitRight | Compressor.java:39-50 | An even row's loop appends exactly the scan of the row left to right. `pixelIndex` ends on the last column. |
| Compressors.EmitLeft | Compressor.java:51-63 | An odd row's loop appends exactly the scan of the reversed row. `pixelIndex` ends on column 0. |
| Compressors.EncodeRow | Compressor.java:36-69 | One pass of the row loop appends the row's commands. Unless it is the last row, it then appends `down 1` in the colour of the next row's pixel at the column where the scan stopped. |
| Compressors.EncodeAll | Compressor.java:35-70 | The row loop appends `Encode` of the image. |
| Compressors.Compressor.constructor | Compressor.java:12-15 | The compressor holds the given image. |
| Compressors.Compressor.Compress | Compressor.java:17-72 | The drawing has height `pixels.length` and width `pixels[0].length`, the unique most frequent colour as background, and the command list `Encode`. |
| Compressors.RoundTripCounterexampleEncode | Compressor.java:38-49 | The row `a a a b b` compresses to `right 2 a`, `right 3 b`. |
| Compressors.RoundTripCounterexampleBackground | Compressor.java:19-33 | Its background is a. |
| Compressors.RoundTripCounterexampleRun | Drawing.java:338-345 | Those two commands, drawn on a 1×5 canvas of a, fail at (5, 0). |
| Compressors.CompressDoesNotRoundTrip | Image.java:116-124 | `draw` of that compressed drawing throws `BadCommand(5, 0)` instead of redrawing the image. |

## Left out

- File reading, `System.out` and `System.exit` are not modelled. `Drawing(String)` and the line validation of `Image(String)` work on the lines already read, and return an error value where Java prints a message and exits. The file itself and `BufferedReader` are not part of the model, apart from the meaning of `readLine` on a string.
- Images.LoadPixels: the file constructor `Image(String)` is modelled as this function on the lines, not as a constructor that fills an array.
- `Image.toPNG`, the EGA `colours` table, `ImageIO`/`BufferedImage` and both `main` methods are rendering and entry points, and are not modelled.
- `Image.compress()` (Image.java:131-135) only constructs a `Compressor` and calls `compress`. It has no member of its own.
- CompressorTest.java and CompressorTestWithScore.java are file-driven harnesses, and are not modelled. Their round-trip assertion does not hold for this `compress`: see `CompressDoesNotRoundTrip`.
- Text: only ASCII digits and letters are given a numeric value. Java's `Character.digit` and `Character.getNumericValue` also accept other Unicode digits and letters. The `BadCommand` message strings are not modelled.
- The `HashMap` of counts is a 16-entry table. The map visits its keys 0..15 in ascending order, and `Collections.max` replaces its candidate only on a strictly larger count, so the lowest colour wins a tie, as `IsBackground` says.
- Compressors.CountColours: counts are unbounded naturals. A Java `int` count would wrap only beyond 2^31 − 1 pixels of one colour.
- Compressors.Compressor.Compress requires an image whose pixels are all colours 0..15, with 1..2^31 − 1 rows and columns:
  - with no row, the Java code fails on `pixels[0]`;
  - with no column, `Collections.max` of an empty map throws;
  - a pixel outside 0..15 is printed as a signed hex number, and the parser of `new DrawingCommand` would exit on it.
- Drawings.Drawing.constructor requires the background to be a colour 0..15. Java states it as an `assert`, which runs only when assertions are enabled.
- Drawings.Drawing.Draw requires a non-negative height and width, where Java's `new int[height][width]` would throw `NegativeArraySizeException`.
- Images.Image.ToString requires at least one row, because Java reads `pixels[0]` first.
- Images.Image.constructor takes natural dimensions. Java's array creation throws for negative ones.
- `pixels` is a rectangular `array2`. Java's `int[][]` could be jagged, but every constructor builds it rectangular.
- Images.Image.GetColor and Images.Image.GetColorAt require the cell to exist. Java throws `ArrayIndexOutOfBoundsException` for a cell outside the image, and no caller in the modelled code reaches that case.
- Images.LoadRows: Dafny strings count Unicode scalar values, while Java's `length()` and `charAt` count UTF-16 code units. For a line holding a character outside the Basic Multilingual Plane, the model can report `InconsistentLength` where Java reports "Invalid contents", or the reverse (Image.java:58, 65). Both reject the line.
- Compressors.Scan and Compressors.RowCommands carry no contract of their own. Their properties are stated by lemmas (`ScanRuns`, `ScanShape`, `RunsFromCons`), because a clause on them would be instantiated in every proof about the whole encoding and make those proofs too costly for the solver.
- `Coordinate` is a value (`Coord`). `draw` updates its two `Coordinate` objects field by field; the model keeps them in local variables, and the objects are never shared.
- `Compressor.compress` is the only encoder in the code. There is no colour-layering or path-finding encoder to model.
