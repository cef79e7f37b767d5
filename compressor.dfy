/** Compressor.java: turns an image into a Drawing. The background is the most
    frequent colour; then each row is scanned, even rows left to right and odd rows
    right to left, one painting command per run of equal pixels, with a `down 1`
    command between rows. */
module Compressors {
  import opened Wrappers
  import opened Int32
  import opened Text
  import opened Images
  import opened Drawings

  // ---------------------------------------------------------------------------
  // The frequency count and the background colour
  // ---------------------------------------------------------------------------

  /** How many cells of a row hold colour c. */
  function RowCount(row: seq<int32>, c: int): nat {
    if row == [] then 0
    else RowCount(row[..|row| - 1], c) + (if row[|row| - 1] == c then 1 else 0)
  }

  /** How many cells of the image hold colour c: the value the map of counts holds
      for key c once the nested loop is done (absent keys count as 0). */
  function GridCount(g: Grid, c: int): nat {
    if g == [] then 0
    else GridCount(g[..|g| - 1], c) + RowCount(g[|g| - 1], c)
  }

  /** The count of c in a row is the multiplicity of c in the row. */
  lemma {:induction false} RowCountMultiset(row: seq<int32>, c: int32)
    ensures RowCount(row, c) == multiset(row)[c]
  {
    if row != [] {
      var n := |row| - 1;
      assert row == row[..n] + [row[n]];
      RowCountMultiset(row[..n], c);
    }
  }

  lemma RowCountPrefix(row: seq<int32>, x: nat, c: int)
    requires x < |row|
    ensures RowCount(row[..x + 1], c) == RowCount(row[..x], c) + (if row[x] == c then 1 else 0)
  {
    assert row[..x + 1][..x] == row[..x];
  }

  lemma GridCountPrefix(g: Grid, y: nat, c: int)
    requires y < |g|
    ensures GridCount(g[..y + 1], c) == GridCount(g[..y], c) + RowCount(g[y], c)
  {
    assert g[..y + 1][..y] == g[..y];
  }

  /** A colour that occurs in a row is counted at least once. */
  lemma {:induction false} RowCountPositive(row: seq<int32>, x: nat)
    requires x < |row|
    ensures RowCount(row, row[x]) >= 1
    decreases |row|
  {
    var n := |row| - 1;
    if x < n {
      assert row[..n][x] == row[x];
      RowCountPositive(row[..n], x);
    }
  }

  /** A colour that occurs in the image is counted at least once. */
  lemma {:induction false} GridCountPositive(g: Grid, x: nat, y: nat)
    requires InBounds(g, x, y)
    ensures GridCount(g, g[y][x]) >= 1
    decreases |g|
  {
    var n := |g| - 1;
    if y < n {
      assert g[..n][y] == g[y];
      GridCountPositive(g[..n], x, y);
    } else {
      RowCountPositive(g[y], x);
    }
  }

  /** `Collections.max` over the entries of the count map by value: a colour whose
      count no other colour exceeds. Entries are visited in ascending key order and
      only a strictly larger count replaces the candidate, so among colours with
      the same count the lowest wins. */
  predicate IsBackground(g: Grid, colour: int) {
    && 0 <= colour < 16
    && (forall c | 0 <= c < 16 :: GridCount(g, c) <= GridCount(g, colour))
    && (forall c | 0 <= c < colour :: GridCount(g, c) < GridCount(g, colour))
  }

  /** The tie-break makes the background unique. */
  lemma BackgroundUnique(g: Grid, a: int, b: int)
    requires IsBackground(g, a) && IsBackground(g, b)
    ensures a == b
  {
    assert GridCount(g, a) == GridCount(g, b);
  }

  /** On a non-empty palette image the background is a colour the image uses. */
  lemma BackgroundOccurs(g: Grid, colour: int)
    requires IsBackground(g, colour) && InPalette(g) && |g| >= 1 && |g[0]| >= 1
    ensures GridCount(g, colour) >= 1
  {
    GridCountPositive(g, 0, 0);
    assert 0 <= g[0][0] < 16;
  }

  // ---------------------------------------------------------------------------
  // The scan of one row
  // ---------------------------------------------------------------------------

  /** Cell i ends a run of equal pixels in scan order: it is the last cell, or the
      next cell has another colour. */
  predicate IsRunEnd(cells: seq<int32>, i: int)
    requires 0 <= i < |cells|
  {
    i == |cells| - 1 || cells[i] != cells[i + 1]
  }

  /** The run ends at positions `from` onward, in increasing order. */
  function RunEnds(cells: seq<int32>, from: nat): (r: seq<nat>)
    requires from <= |cells|
    ensures forall k | 0 <= k < |r| :: from <= r[k] < |cells|
    decreases |cells| - from
  {
    if from == |cells| then []
    else if IsRunEnd(cells, from) then [from] + RunEnds(cells, from + 1)
    else RunEnds(cells, from + 1)
  }

  /** Every listed position ends a run; the k-th lies at least k places after
      `from`. */
  lemma {:induction false} RunEndsAreEnds(cells: seq<int32>, from: nat)
    requires from <= |cells|
    ensures forall k | 0 <= k < |RunEnds(cells, from)| ::
      IsRunEnd(cells, RunEnds(cells, from)[k]) && RunEnds(cells, from)[k] >= from + k
    decreases |cells| - from
  {
    if from < |cells| {
      var r, r' := RunEnds(cells, from), RunEnds(cells, from + 1);
      RunEndsAreEnds(cells, from + 1);
      if IsRunEnd(cells, from) {
        assert forall k | 1 <= k < |r| :: r[k] == r'[k - 1];
      }
    }
  }

  /** The positions are listed in increasing order. */
  lemma {:induction false} RunEndsIncreasing(cells: seq<int32>, from: nat)
    requires from <= |cells|
    ensures forall k, l | 0 <= k < l < |RunEnds(cells, from)| :: RunEnds(cells, from)[k] < RunEnds(cells, from)[l]
    decreases |cells| - from
  {
    if from < |cells| {
      var r, r' := RunEnds(cells, from), RunEnds(cells, from + 1);
      RunEndsIncreasing(cells, from + 1);
      if IsRunEnd(cells, from) {
        assert forall k | 1 <= k < |r| :: r[k] == r'[k - 1] && r[k] > from;
      }
    }
  }

  /** No run end from `from` on is missing. */
  lemma {:induction false} RunEndsComplete(cells: seq<int32>, from: nat)
    requires from <= |cells|
    ensures forall i | from <= i < |cells| && IsRunEnd(cells, i) :: i in RunEnds(cells, from)
    decreases |cells| - from
  {
    if from < |cells| {
      var r, r' := RunEnds(cells, from), RunEnds(cells, from + 1);
      RunEndsComplete(cells, from + 1);
      if IsRunEnd(cells, from) {
        assert r == [from] + r';
      }
    }
  }

  /** RunEnds lists exactly the run ends from `from` on, each once, in increasing
      order. */
  lemma RunEndsExact(cells: seq<int32>, from: nat)
    requires from <= |cells|
    ensures var r := RunEnds(cells, from);
      && (forall k | 0 <= k < |r| :: IsRunEnd(cells, r[k]) && r[k] >= from + k)
      && (forall k, l | 0 <= k < l < |r| :: r[k] < r[l])
      && (forall i | from <= i < |cells| && IsRunEnd(cells, i) :: i in r)
  {
    RunEndsAreEnds(cells, from);
    RunEndsIncreasing(cells, from);
    RunEndsComplete(cells, from);
  }

  /** The last cell always ends a run, so it is the last run end. */
  lemma {:induction false} LastRunEnd(cells: seq<int32>, from: nat)
    requires from < |cells|
    ensures |RunEnds(cells, from)| >= 1
    ensures RunEnds(cells, from)[|RunEnds(cells, from)| - 1] == |cells| - 1
    decreases |cells| - from
  {
    if from < |cells| - 1 {
      LastRunEnd(cells, from + 1);
    }
  }

  /** The row loop of `compress` from position `from` with counter `pCount`: a run
      end emits a painting command of distance pCount in colour cells[from]; any
      other cell increments pCount, which is never reset. */
  function Scan(cells: seq<int32>, from: nat, dir: Direction, pCount: nat): seq<Command>
    requires from <= |cells| && pCount + |cells| - from <= MAX
    decreases |cells| - from
  {
    if from == |cells| then []
    else if IsRunEnd(cells, from) then
      [Command(dir, pCount as int32, true, cells[from])] + Scan(cells, from + 1, dir, pCount)
    else Scan(cells, from + 1, dir, pCount + 1)
  }

  /** Command c is the one the scan from `from` emits for its k-th run, which ends
      at e. */
  predicate ForRun(cells: seq<int32>, from: nat, dir: Direction, pCount: nat, k: nat, e: nat, c: Command)
    requires e < |cells|
  {
    c.dir == dir && c.paint && c.colour == cells[e] && c.distance == pCount + e - from - k
  }

  /** The commands r are, one by one, those for the run ends `ends`. */
  predicate MatchesRuns(cells: seq<int32>, from: nat, dir: Direction, pCount: nat, ends: seq<nat>, r: seq<Command>)
    requires forall k | 0 <= k < |ends| :: ends[k] < |cells|
  {
    |r| == |ends| && forall k | 0 <= k < |ends| :: ForRun(cells, from, dir, pCount, k, ends[k], r[k])
  }

  /** One command per run end; the k-th is for the run ending at e, in the colour
      of that run, and its distance is pCount plus the cells before e that end no
      run. */
  lemma {:induction false} ScanRuns(cells: seq<int32>, from: nat, dir: Direction, pCount: nat)
    requires from <= |cells| && pCount + |cells| - from <= MAX
    ensures MatchesRuns(cells, from, dir, pCount, RunEnds(cells, from), Scan(cells, from, dir, pCount))
    decreases |cells| - from
  {
    if from < |cells| {
      if IsRunEnd(cells, from) {
        ScanRuns(cells, from + 1, dir, pCount);
        ScanRunsAtEnd(cells, from, dir, pCount);
      } else {
        ScanRuns(cells, from + 1, dir, pCount + 1);
        ScanRunsInside(cells, from, dir, pCount);
      }
    }
  }

  /** The step of ScanRuns at a run end: one command more, in front. */
  lemma ScanRunsAtEnd(cells: seq<int32>, from: nat, dir: Direction, pCount: nat)
    requires from < |cells| && pCount + |cells| - from <= MAX && IsRunEnd(cells, from)
    requires MatchesRuns(cells, from + 1, dir, pCount, RunEnds(cells, from + 1), Scan(cells, from + 1, dir, pCount))
    ensures MatchesRuns(cells, from, dir, pCount, RunEnds(cells, from), Scan(cells, from, dir, pCount))
  {
    var ends, r := RunEnds(cells, from), Scan(cells, from, dir, pCount);
    var ends', r' := RunEnds(cells, from + 1), Scan(cells, from + 1, dir, pCount);
    assert ends == [from] + ends' && r == [r[0]] + r';
    forall k | 1 <= k < |ends|
      ensures ForRun(cells, from, dir, pCount, k, ends[k], r[k])
    {
      assert ForRun(cells, from + 1, dir, pCount, k - 1, ends'[k - 1], r'[k - 1]);
    }
  }

  /** The step of ScanRuns inside a run: the same commands, counted one further. */
  lemma ScanRunsInside(cells: seq<int32>, from: nat, dir: Direction, pCount: nat)
    requires from < |cells| && pCount + |cells| - from <= MAX && !IsRunEnd(cells, from)
    requires MatchesRuns(cells, from + 1, dir, pCount + 1, RunEnds(cells, from + 1), Scan(cells, from + 1, dir, pCount + 1))
    ensures MatchesRuns(cells, from, dir, pCount, RunEnds(cells, from), Scan(cells, from, dir, pCount))
  {
    var ends, r := RunEnds(cells, from), Scan(cells, from, dir, pCount);
    forall k | 0 <= k < |ends|
      ensures ForRun(cells, from, dir, pCount, k, ends[k], r[k])
    {
      assert ForRun(cells, from + 1, dir, pCount + 1, k, ends[k], r[k]);
    }
  }

  /** Within a row every command goes the scan's way and paints; the distances
      start at pCount or more and never decrease, and the last is pCount plus the
      number of cells that end no run. */
  lemma ScanShape(cells: seq<int32>, from: nat, dir: Direction, pCount: nat)
    requires from <= |cells| && pCount + |cells| - from <= MAX
    ensures var r := Scan(cells, from, dir, pCount);
      && (forall k | 0 <= k < |r| :: r[k].dir == dir && r[k].paint && r[k].distance >= pCount)
      && (forall k | 0 <= k < |r| - 1 :: r[k].distance <= r[k + 1].distance)
      && (from < |cells| ==> |r| >= 1 && r[|r| - 1].distance == pCount + |cells| - from - |r|)
  {
    var r, ends := Scan(cells, from, dir, pCount), RunEnds(cells, from);
    ScanRuns(cells, from, dir, pCount);
    RunEndsAreEnds(cells, from);
    RunEndsIncreasing(cells, from);
    forall k | 0 <= k < |r|
      ensures r[k].dir == dir && r[k].paint && r[k].distance >= pCount
    {
      assert ForRun(cells, from, dir, pCount, k, ends[k], r[k]);
    }
    forall k | 0 <= k < |r| - 1
      ensures r[k].distance <= r[k + 1].distance
    {
      assert ForRun(cells, from, dir, pCount, k, ends[k], r[k]);
      assert ForRun(cells, from, dir, pCount, k + 1, ends[k + 1], r[k + 1]);
    }
    if from < |cells| {
      LastRunEnd(cells, from);
      assert ForRun(cells, from, dir, pCount, |r| - 1, ends[|r| - 1], r[|r| - 1]);
    }
  }

  // ---------------------------------------------------------------------------
  // The whole encoding
  // ---------------------------------------------------------------------------

  /** A row read right to left. */
  function Reversed(s: seq<int32>): seq<int32> {
    seq(|s|, i requires 0 <= i < |s| => s[|s| - 1 - i])
  }

  /** An image `compress` can handle: at least one row, all rows of the same
      non-zero length, and both dimensions Java ints. */
  predicate Encodable(g: Grid) {
    1 <= |g| <= MAX && 1 <= |g[0]| <= MAX && IsRaster(g, |g|, |g[0]|)
  }

  /** Even rows are scanned rightwards, odd rows leftwards. */
  function ScanDir(y: int): Direction {
    if y % 2 == 0 then Right else Left
  }

  /** Row y in the order its scan visits it. */
  function ScanCells(g: Grid, y: int): seq<int32>
    requires 0 <= y < |g|
  {
    if y % 2 == 0 then g[y] else Reversed(g[y])
  }

  /** The column where the scan of row y stops: the last after an even row, the
      first after an odd one. */
  function ScanEnd(g: Grid, y: int): int
    requires 0 <= y < |g|
  {
    if y % 2 == 0 then |g[y]| - 1 else 0
  }

  /** The commands for row y. */
  function RowCommands(g: Grid, y: int): seq<Command>
    requires Encodable(g) && 0 <= y < |g|
  {
    Scan(ScanCells(g, y), 0, ScanDir(y), 0)
  }

  /** The `down 1` command after row y, in the colour of the cell below the end of
      the scan; on a palette image it is one the parser accepts. */
  function Link(g: Grid, y: int): (c: Command)
    requires Encodable(g) && 0 <= y < |g| - 1
    ensures c.dir == Down && c.distance == 1 && c.paint
    ensures InPalette(g) ==> WellFormed(c)
  {
    Command(Down, 1, true, g[y + 1][ScanEnd(g, y)])
  }

  /** The commands for rows y onward. */
  function EncodeRows(g: Grid, y: nat): seq<Command>
    requires Encodable(g) && y <= |g|
    decreases |g| - y
  {
    if y == |g| then []
    else RowCommands(g, y) + (if y < |g| - 1 then [Link(g, y)] else []) + EncodeRows(g, y + 1)
  }

  /** The command list of the Drawing that `compress` returns: one command per run
      of each row, and exactly one `down` command between consecutive rows. */
  function Encode(g: Grid): (r: seq<Command>)
    requires Encodable(g)
    ensures |r| == RunsFrom(g, 0) + |g| - 1
    ensures DownCount(r) == |g| - 1
  {
    EncodeRowsLength(g, 0);
    EncodeRowsDowns(g, 0);
    EncodeRows(g, 0)
  }

  /** The number of runs in the rows from y onward. */
  function RunsFrom(g: Grid, y: nat): nat
    requires y <= |g|
    decreases |g| - y
  {
    if y == |g| then 0 else |RunEnds(ScanCells(g, y), 0)| + RunsFrom(g, y + 1)
  }

  /** One command per run and one `down 1` between consecutive rows. */
  lemma {:induction false} EncodeRowsLength(g: Grid, y: nat)
    requires Encodable(g) && y < |g|
    ensures |EncodeRows(g, y)| + y + 1 == RunsFrom(g, y) + |g|
    decreases |g| - y
  {
    if y < |g| - 1 {
      EncodeRowsLength(g, y + 1);
      EncodeRowsLengthStep(g, y);
    } else {
      RunsFromCons(g, y);
      assert EncodeRows(g, y) == RowCommands(g, y) + [] + [];
      assert RunsFrom(g, y + 1) == 0;
    }
  }

  /** The step of EncodeRowsLength: a row other than the last adds its runs and
      its link to the count for the rows below it. */
  lemma EncodeRowsLengthStep(g: Grid, y: nat)
    requires Encodable(g) && y < |g| - 1
    requires |EncodeRows(g, y + 1)| + (y + 1) + 1 == RunsFrom(g, y + 1) + |g|
    ensures |EncodeRows(g, y)| + y + 1 == RunsFrom(g, y) + |g|
  {
    EncodeRowsCons(g, y);
    RunsFromCons(g, y);
    CountStep(|EncodeRows(g, y)|, |RowCommands(g, y)|, |EncodeRows(g, y + 1)|, RunsFrom(g, y), RunsFrom(g, y + 1), |g|, y);
  }

  /** The arithmetic of that step. */
  lemma CountStep(len: int, row: int, rest: int, runs: int, later: int, h: int, y: int)
    requires len == row + 1 + rest && runs == row + later && rest + (y + 1) + 1 == later + h
    ensures len + y + 1 == runs + h
  {
  }

  lemma EncodeRowsCons(g: Grid, y: nat)
    requires Encodable(g) && y < |g| - 1
    ensures |EncodeRows(g, y)| == |RowCommands(g, y)| + 1 + |EncodeRows(g, y + 1)|
  {
    assert EncodeRows(g, y) == RowCommands(g, y) + [Link(g, y)] + EncodeRows(g, y + 1);
  }

  /** Row y emits one command per run. */
  lemma RunsFromCons(g: Grid, y: nat)
    requires Encodable(g) && y < |g|
    ensures RunsFrom(g, y) == |RowCommands(g, y)| + RunsFrom(g, y + 1)
  {
    ScanRuns(ScanCells(g, y), 0, ScanDir(y), 0);
  }

  /** How many commands of cmds go down. */
  function DownCount(cmds: seq<Command>): nat {
    if cmds == [] then 0 else (if cmds[0].dir == Down then 1 else 0) + DownCount(cmds[1..])
  }

  lemma {:induction false} DownCountConcat(a: seq<Command>, b: seq<Command>)
    ensures DownCount(a + b) == DownCount(a) + DownCount(b)
  {
    if a != [] {
      assert (a + b)[0] == a[0];
      assert (a + b)[1..] == a[1..] + b;
      DownCountConcat(a[1..], b);
    } else {
      assert a + b == b;
    }
  }

  lemma {:induction false} DownCountNone(cmds: seq<Command>)
    requires forall k | 0 <= k < |cmds| :: cmds[k].dir != Down
    ensures DownCount(cmds) == 0
  {
    if cmds != [] {
      DownCountNone(cmds[1..]);
    }
  }

  /** The scan of a row never goes down, so the only `down` commands are the links:
      exactly one after each row but the last. */
  lemma {:induction false} EncodeRowsDowns(g: Grid, y: nat)
    requires Encodable(g) && y < |g|
    ensures DownCount(EncodeRows(g, y)) == |g| - 1 - y
    decreases |g| - y
  {
    if y < |g| - 1 {
      EncodeRowsDowns(g, y + 1);
      EncodeRowsDownsStep(g, y);
    } else {
      EncodeRowsDownsLast(g, y);
    }
  }

  lemma RowCommandsDowns(g: Grid, y: nat)
    requires Encodable(g) && y < |g|
    ensures DownCount(RowCommands(g, y)) == 0
  {
    ScanShape(ScanCells(g, y), 0, ScanDir(y), 0);
    DownCountNone(RowCommands(g, y));
  }

  /** The step of EncodeRowsDowns: a row other than the last adds its link and
      nothing else to the count for the rows below it. */
  lemma EncodeRowsDownsStep(g: Grid, y: nat)
    requires Encodable(g) && y < |g| - 1
    requires DownCount(EncodeRows(g, y + 1)) == |g| - 1 - (y + 1)
    ensures DownCount(EncodeRows(g, y)) == |g| - 1 - y
  {
    var row, link, rest := RowCommands(g, y), [Link(g, y)], EncodeRows(g, y + 1);
    assert EncodeRows(g, y) == row + link + rest;
    RowCommandsDowns(g, y);
    DownCountConcat(row, link);
    DownCountConcat(row + link, rest);
    assert DownCount(link) == 1 by {
      assert link[1..] == [];
    }
  }

  /** The last row adds no `down` command. */
  lemma EncodeRowsDownsLast(g: Grid, y: nat)
    requires Encodable(g) && y == |g| - 1
    ensures DownCount(EncodeRows(g, y)) == 0
  {
    assert EncodeRows(g, y) == RowCommands(g, y) + [] + [];
    assert RowCommands(g, y) + [] + [] == RowCommands(g, y);
    RowCommandsDowns(g, y);
  }

  /** A command paints in a colour some pixel of g has. */
  predicate PaintsImageColour(g: Grid, c: Command) {
    c.paint && exists y, x | 0 <= y < |g| && 0 <= x < |g[y]| :: c.colour == g[y][x]
  }

  /** Every command of cmds paints in a colour of g. */
  predicate ImageColours(g: Grid, cmds: seq<Command>) {
    forall k | 0 <= k < |cmds| :: PaintsImageColour(g, cmds[k])
  }

  lemma {:induction false} RowCommandsColours(g: Grid, y: nat)
    requires Encodable(g) && y < |g|
    ensures ImageColours(g, RowCommands(g, y))
  {
    var cells := ScanCells(g, y);
    ScanRuns(cells, 0, ScanDir(y), 0);
    var ends := RunEnds(cells, 0);
    forall k | 0 <= k < |RowCommands(g, y)|
      ensures PaintsImageColour(g, RowCommands(g, y)[k])
    {
      var e := ends[k];
      var x := if y % 2 == 0 then e else |g[y]| - 1 - e;
      assert ForRun(cells, 0, ScanDir(y), 0, k, e, RowCommands(g, y)[k]);
      assert cells[e] == g[y][x];
    }
  }

  lemma LinkColour(g: Grid, y: nat)
    requires Encodable(g) && y < |g| - 1
    ensures ImageColours(g, [Link(g, y)])
  {
    assert 0 <= ScanEnd(g, y) < |g[y + 1]|;
    assert PaintsImageColour(g, Link(g, y));
  }

  /** Every emitted command paints, in a colour taken from the image. */
  lemma {:induction false} EncodeRowsColours(g: Grid, y: nat)
    requires Encodable(g) && y <= |g|
    ensures ImageColours(g, EncodeRows(g, y))
    decreases |g| - y
  {
    if y < |g| {
      RowCommandsColours(g, y);
      EncodeRowsColours(g, y + 1);
      EncodeRowsColoursStep(g, y);
    }
  }

  /** The step of EncodeRowsColours: row y's commands, the link below it and the
      later rows' commands together paint in the image's colours. */
  lemma EncodeRowsColoursStep(g: Grid, y: nat)
    requires Encodable(g) && y < |g|
    requires ImageColours(g, RowCommands(g, y)) && ImageColours(g, EncodeRows(g, y + 1))
    ensures ImageColours(g, EncodeRows(g, y))
  {
    var row, rest := RowCommands(g, y), EncodeRows(g, y + 1);
    if y < |g| - 1 {
      LinkColour(g, y);
      ImageColoursConcat(g, row, [Link(g, y)]);
      ImageColoursConcat(g, row + [Link(g, y)], rest);
    } else {
      assert rest == [];
      assert EncodeRows(g, y) == row + [] + [];
      assert row + [] + [] == row;
    }
  }

  lemma ImageColoursConcat(g: Grid, a: seq<Command>, b: seq<Command>)
    requires ImageColours(g, a) && ImageColours(g, b)
    ensures ImageColours(g, a + b)
  {
    forall k | 0 <= k < |a + b|
      ensures PaintsImageColour(g, (a + b)[k])
    {
      if k >= |a| {
        assert (a + b)[k] == b[k - |a|];
      }
    }
  }

  /** On a palette image every emitted command is one the parser accepts. */
  lemma EncodeWellFormed(g: Grid)
    requires Encodable(g) && InPalette(g)
    ensures forall k | 0 <= k < |Encode(g)| :: WellFormed(Encode(g)[k])
  {
    EncodeRowsColours(g, 0);
    forall k | 0 <= k < |Encode(g)|
      ensures WellFormed(Encode(g)[k])
    {
      assert PaintsImageColour(g, Encode(g)[k]);
    }
  }

  // ---------------------------------------------------------------------------
  // The text `compress` builds for each command
  // ---------------------------------------------------------------------------

  /** The string `dir + " " + n + " " + Integer.toString(colour, 16)` parses back to
      the painting command it describes. */
  lemma EmittedCommand(text: string, dir: Direction, distance: int32, colour: int32)
    requires 0 <= colour <= 15
    requires text == DirectionName(dir) + " " + Decimal(distance) + " " + SignedHex(colour)
    ensures ParseCommand(text) == Ok(Command(dir, distance, true, colour))
  {
    HexDigitText(colour);
    CommandRoundTrip(Command(dir, distance, true, colour));
    assert text == CommandText(Command(dir, distance, true, colour));
  }

  // ---------------------------------------------------------------------------
  // compress
  // ---------------------------------------------------------------------------

  /** g is the value of the pixel array `pixels`. */
  ghost predicate Holds(pixels: array2<int32>, g: Grid)
    reads pixels
  {
    && IsRaster(g, pixels.Length0, pixels.Length1)
    && forall y, x | 0 <= y < pixels.Length0 && 0 <= x < pixels.Length1 :: g[y][x] == pixels[y, x]
  }

  /** The nested loop that fills the map of counts, here a 16-entry table. */
  method CountColours(pixels: array2<int32>, ghost g: Grid) returns (counts: seq<nat>)
    requires Holds(pixels, g) && InPalette(g)
    ensures |counts| == 16
    ensures forall c | 0 <= c < 16 :: counts[c] == GridCount(g, c)
  {
    var height, width := pixels.Length0, pixels.Length1;
    var tally := new nat[16](_ => 0);
    for y := 0 to height
      invariant forall c | 0 <= c < 16 :: tally[c] == GridCount(g[..y], c)
    {
      for x := 0 to width
        invariant forall c | 0 <= c < 16 :: tally[c] == GridCount(g[..y], c) + RowCount(g[y][..x], c)
      {
        var n := pixels[y, x];
        assert n == g[y][x];
        forall c | 0 <= c < 16 {
          RowCountPrefix(g[y], x, c);
        }
        tally[n] := tally[n] + 1;
      }
      assert g[y][..width] == g[y];
      forall c | 0 <= c < 16 {
        GridCountPrefix(g, y, c);
      }
    }
    assert g[..height] == g;
    counts := tally[..];
  }

  /** Collections.max by count: the candidate is replaced only by a strictly
      larger count. */
  method MostFrequent(counts: seq<nat>) returns (colour: int32)
    requires |counts| == 16
    ensures 0 <= colour < 16
    ensures forall c | 0 <= c < 16 :: counts[c] <= counts[colour]
    ensures forall c | 0 <= c < colour :: counts[c] < counts[colour]
  {
    colour := 0;
    for c := 1 to 16
      invariant 0 <= colour < c
      invariant forall k | 0 <= k < c :: counts[k] <= counts[colour]
      invariant forall k | 0 <= k < colour :: counts[k] < counts[colour]
    {
      if counts[c] > counts[colour] {
        colour := c;
      }
    }
  }

  /** `new DrawingCommand(dir + " " + distance + " " + Integer.toString(colour, 16))`:
      the command is built by formatting its text and parsing it back. */
  method NewPaintCommand(dir: Direction, distance: int32, colour: int32) returns (c: Command)
    requires 0 <= colour <= 15
    ensures c == Command(dir, distance, true, colour)
  {
    var text := DirectionName(dir) + " " + Decimal(distance) + " " + SignedHex(colour);
    EmittedCommand(text, dir, distance, colour);
    c := ParseCommand(text).value;
  }

  /** The first half of `compress`: count the colours and take the most frequent. */
  method Background(pixels: array2<int32>, ghost g: Grid) returns (colour: int32)
    requires Holds(pixels, g) && InPalette(g)
    ensures IsBackground(g, colour)
  {
    var counts := CountColours(pixels, g);
    colour := MostFrequent(counts);
  }

  lemma Regroup(a: seq<Command>, b: seq<Command>, c: seq<Command>, e: seq<Command>)
    ensures (a + b + c) + e == a + (b + c + e)
  {
  }

  lemma HoldsUnique(pixels: array2<int32>, a: Grid, b: Grid)
    requires Holds(pixels, a) && Holds(pixels, b)
    ensures a == b
  {
    assert forall y | 0 <= y < |a| :: a[y] == b[y];
  }

  /** The loop over an even row: left to right, a `right` command at each run end. */
  method EmitRight(pixels: array2<int32>, ghost g: Grid, y: nat, d: Drawing) returns (pixelIndex: int)
    requires Holds(pixels, g) && Encodable(g) && InPalette(g) && y < |g|
    modifies d
    ensures d.height == old(d.height) && d.width == old(d.width) && d.background == old(d.background)
    ensures d.commands == old(d.commands) + Scan(g[y], 0, Right, 0)
    ensures pixelIndex == pixels.Length1 - 1
  {
    ghost var cells := g[y];
    var width := pixels.Length1;
    pixelIndex := 0;
    var pCount := 0;
    while pixelIndex < width && pixelIndex >= 0
      invariant 0 <= pCount <= pixelIndex <= width
      invariant d.height == old(d.height) && d.width == old(d.width) && d.background == old(d.background)
      invariant d.commands + Scan(cells, pixelIndex, Right, pCount) == old(d.commands) + Scan(cells, 0, Right, 0)
      decreases width - pixelIndex
    {
      var pColor := pixels[y, pixelIndex];
      assert pColor == cells[pixelIndex];
      if pixelIndex == width - 1 || pColor != pixels[y, pixelIndex + 1] {
        var command := NewPaintCommand(Right, pCount, pColor);
        d.AddCommand(command);
      } else {
        assert cells[pixelIndex + 1] == pixels[y, pixelIndex + 1];
        pCount := pCount + 1;
      }
      pixelIndex := pixelIndex + 1;
    }
    pixelIndex := pixelIndex - 1;
  }

  /** The loop over an odd row: right to left, a `left` command at each run end. */
  method EmitLeft(pixels: array2<int32>, ghost g: Grid, y: nat, d: Drawing) returns (pixelIndex: int)
    requires Holds(pixels, g) && Encodable(g) && InPalette(g) && y < |g|
    modifies d
    ensures d.height == old(d.height) && d.width == old(d.width) && d.background == old(d.background)
    ensures d.commands == old(d.commands) + Scan(Reversed(g[y]), 0, Left, 0)
    ensures pixelIndex == 0
  {
    ghost var cells := Reversed(g[y]);
    var width := pixels.Length1;
    pixelIndex := width - 1;
    var pCount := 0;
    while pixelIndex < width && pixelIndex >= 0
      invariant -1 <= pixelIndex < width
      invariant 0 <= pCount <= width - 1 - pixelIndex
      invariant d.height == old(d.height) && d.width == old(d.width) && d.background == old(d.background)
      invariant d.commands + Scan(cells, width - 1 - pixelIndex, Left, pCount) == old(d.commands) + Scan(cells, 0, Left, 0)
      decreases pixelIndex
    {
      var pColor := pixels[y, pixelIndex];
      assert pColor == cells[width - 1 - pixelIndex];
      if pixelIndex == 0 || pColor != pixels[y, pixelIndex - 1] {
        var command := NewPaintCommand(Left, pCount, pColor);
        d.AddCommand(command);
      } else {
        assert cells[width - pixelIndex] == pixels[y, pixelIndex - 1];
        pCount := pCount + 1;
      }
      pixelIndex := pixelIndex - 1;
    }
    pixelIndex := pixelIndex + 1;
  }

  /** One pass of the loop over the rows in `compress`: the scan of row y, then,
      unless y is the last row, the `down 1` command in the colour of the cell
      below where the scan stopped. */
  method EncodeRow(pixels: array2<int32>, ghost g: Grid, y: nat, d: Drawing)
    requires Holds(pixels, g) && Encodable(g) && InPalette(g) && y < |g|
    modifies d
    ensures d.height == old(d.height) && d.width == old(d.width) && d.background == old(d.background)
    ensures d.commands == old(d.commands) + RowCommands(g, y) + (if y < |g| - 1 then [Link(g, y)] else [])
  {
    var pixelIndex;
    if y % 2 == 0 {
      pixelIndex := EmitRight(pixels, g, y, d);
    } else {
      pixelIndex := EmitLeft(pixels, g, y, d);
    }
    if y < pixels.Length0 - 1 {
      var pCol := pixels[y + 1, pixelIndex];
      assert pCol == g[y + 1][ScanEnd(g, y)];
      var command := NewPaintCommand(Down, 1, pCol);
      d.AddCommand(command);
    }
  }

  /** The loop over the rows in `compress`. */
  method EncodeAll(pixels: array2<int32>, ghost g: Grid, d: Drawing)
    requires Holds(pixels, g) && Encodable(g) && InPalette(g)
    modifies d
    ensures d.height == old(d.height) && d.width == old(d.width) && d.background == old(d.background)
    ensures d.commands == old(d.commands) + Encode(g)
  {
    var height := pixels.Length0;
    var rowNum := 0;
    while rowNum < height
      invariant 0 <= rowNum <= height
      invariant d.height == old(d.height) && d.width == old(d.width) && d.background == old(d.background)
      invariant d.commands + EncodeRows(g, rowNum) == old(d.commands) + Encode(g)
    {
      ghost var done := d.commands;
      ghost var link := if rowNum < height - 1 then [Link(g, rowNum)] else [];
      EncodeRow(pixels, g, rowNum, d);
      assert EncodeRows(g, rowNum) == RowCommands(g, rowNum) + link + EncodeRows(g, rowNum + 1);
      Regroup(done, RowCommands(g, rowNum), link, EncodeRows(g, rowNum + 1));
      rowNum := rowNum + 1;
    }
  }

  class Compressor {
    const image: Image

    constructor (image: Image)
      ensures this.image == image
    {
      this.image := image;
    }

    /** compress(): a Drawing of the image's size, on the most frequent colour, with
        the serpentine run-length commands. */
    method Compress() returns (d: Drawing)
      requires 1 <= image.pixels.Length0 <= MAX && 1 <= image.pixels.Length1 <= MAX
      requires InPalette(image.Rows())
      ensures d.height == image.pixels.Length0 && d.width == image.pixels.Length1
      ensures IsBackground(image.Rows(), d.background)
      ensures Encodable(image.Rows()) && d.commands == Encode(image.Rows())
    {
      ghost var g := image.Rows();
      var pixels := image.pixels;
      var color := Background(pixels, g);
      d := new Drawing(pixels.Length0, pixels.Length1, color);
      EncodeAll(pixels, g, d);
      HoldsUnique(pixels, g, image.Rows());
    }
  }

  // ---------------------------------------------------------------------------
  // compress does not round-trip
  // ---------------------------------------------------------------------------

  /** The single row a a a b b (a = 10, b = 11): the counter is not reset after
      the first run, so the second command is `right 3 b` instead of `right 2 b`. */
  lemma RoundTripCounterexampleEncode(g: Grid)
    requires g == [[10, 10, 10, 11, 11]]
    ensures Encodable(g)
    ensures Encode(g) == [Command(Right, 2, true, 10), Command(Right, 3, true, 11)]
  {
    var row := g[0];
    assert ScanCells(g, 0) == row;
    assert Scan(row, 4, Right, 3) == [Command(Right, 3, true, 11)];
    assert Scan(row, 2, Right, 2) == [Command(Right, 2, true, 10)] + Scan(row, 3, Right, 2);
    assert Scan(row, 0, Right, 0) == Scan(row, 2, Right, 2);
    assert EncodeRows(g, 1) == [];
  }

  /** Colour a occurs three times, b twice: a is the background. */
  lemma RoundTripCounterexampleBackground(g: Grid)
    requires g == [[10, 10, 10, 11, 11]]
    ensures IsBackground(g, 10)
  {
    var row := g[0];
    forall c | 0 <= c < 16
      ensures GridCount(g, c) == if c == 10 then 3 else if c == 11 then 2 else 0
    {
      assert g[..0] == [];
      assert GridCount(g, c) == RowCount(row, c);
      RowCountMultiset(row, c);
      assert multiset(row) == multiset{10, 10, 10, 11, 11};
    }
  }

  /** Replaying the two commands: `right 2 a` paints (1,0) and (2,0), then
      `right 3 b` paints (3,0) and (4,0) and fails at (5,0). */
  lemma RoundTripCounterexampleRun(s: State, cmds: seq<Command>)
    requires s == State([[10, 10, 10, 10, 10]], Coord(0, 0))
    requires cmds == [Command(Right, 2, true, 10), Command(Right, 3, true, 11)]
    ensures Run(s, cmds) == Err(BadCommand(5, 0))
  {
    var t := State(s.grid, Coord(2, 0));
    CounterexampleFirst(s, cmds[0], t);
    CounterexampleSecond(t, cmds[1]);
    assert cmds[1..] == [cmds[1]];
  }

  lemma CounterexampleFirst(s: State, c: Command, t: State)
    requires s == State([[10, 10, 10, 10, 10]], Coord(0, 0)) && c == Command(Right, 2, true, 10)
    requires t == State(s.grid, Coord(2, 0))
    ensures Step(s, c) == Ok(t)
  {
    assert Next(Coord(0, 0), Right) == Coord(1, 0) && Next(Coord(1, 0), Right) == Coord(2, 0);
    assert Offset(Coord(0, 0), Right, 2) == Coord(2, 0);
    Update(s.grid, 1, 0, 10, s.grid, 5);
    Update(s.grid, 2, 0, 10, s.grid, 5);
  }

  lemma CounterexampleSecond(t: State, c: Command)
    requires t == State([[10, 10, 10, 10, 10]], Coord(2, 0)) && c == Command(Right, 3, true, 11)
    ensures Step(t, c) == Err(BadCommand(5, 0))
  {
    var g3 := [[10, 10, 10, 11, 10]];
    var g4 := [[10, 10, 10, 11, 11]];
    assert Next(Coord(2, 0), Right) == Coord(3, 0) && Next(Coord(3, 0), Right) == Coord(4, 0);
    assert Next(Coord(4, 0), Right) == Coord(5, 0);
    Update(t.grid, 3, 0, 11, g3, 5);
    Update(g3, 4, 0, 11, g4, 5);
    assert SetCell(g4, 5, 0, 11) == Err(BadCommand(5, 0));
    assert Paint(g4, Coord(4, 0), Right, 1, 11) == Err(BadCommand(5, 0));
    assert Paint(g3, Coord(3, 0), Right, 2, 11) == Err(BadCommand(5, 0));
  }

  /** `compress` does not invert `draw`: on the image a a a b b the Drawing it
      returns (background a, the two commands above) cannot even be drawn. */
  lemma CompressDoesNotRoundTrip(g: Grid)
    requires g == [[10, 10, 10, 11, 11]]
    ensures Encodable(g) && IsBackground(g, 10)
    ensures Execute(DrawingData(1, 5, 10, Encode(g))) == Err(BadCommand(5, 0))
  {
    RoundTripCounterexampleEncode(g);
    RoundTripCounterexampleBackground(g);
    var d := DrawingData(1, 5, 10, Encode(g));
    assert Start(d).grid == [[10, 10, 10, 10, 10]] by {
      assert Start(d).grid[0] == [10, 10, 10, 10, 10];
    }
    RoundTripCounterexampleRun(Start(d), d.commands);
  }
}
