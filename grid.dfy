/** The terrain grid of a match: parsed once from the lines of a map file,
    validated, and only queried afterwards. Cells are characters of the
    alphabet "01269"; '9' is an obstacle and '6' a mine. */
module Grid {
  import opened Common

  /** The failures map construction and map queries report. */
  datatype MapError = InvalidCharacter | InconsistentRowWidth | InvalidDimensions | OutOfRange | NoBasePosition

  const ValidCharacters: string := "01269"

  /** `isValidCellCharacter` */
  predicate IsValidCellCharacter(c: char): (b: bool)
    ensures b <==> c == '0' || c == '1' || c == '2' || c == '6' || c == '9'
  {
    c in ValidCharacters
  }

  /** `isValidDimensions` */
  predicate IsValidDimensions(width: nat, height: nat): (b: bool)
    ensures b <==> width * height > 0
  {
    width > 0 && height > 0
  }

  /** Every character of every line is in the cell alphabet. */
  predicate AllValidCharacters(lines: seq<string>) {
    forall y, x :: 0 <= y < |lines| && 0 <= x < |lines[y]| ==> IsValidCellCharacter(lines[y][x])
  }

  /** Every line is as long as the first. */
  predicate Rectangular(lines: seq<string>) {
    forall y :: 0 <= y < |lines| ==> |lines[y]| == |lines[0]|
  }

  /** Row-major order on cells: (x1, y1) is scanned before (x2, y2). */
  predicate ScannedBefore(x1: int, y1: int, x2: int, y2: int) {
    y1 < y2 || (y1 == y2 && x1 < x2)
  }

  /** A map: its rows, indexed `grid[y][x]`. */
  datatype Map = Map(grid: seq<seq<char>>) {

    /** `getWidth`: the length of the first row, 0 for an empty grid. */
    function Width(): (w: nat)
      ensures w == 0 <==> grid == [] || grid[0] == []
      ensures Rectangular(grid) ==> forall y :: 0 <= y < |grid| ==> |grid[y]| == w
    {
      if |grid| == 0 then 0 else |grid[0]|
    }

    /** `getHeight`: the number of rows. */
    function Height(): (h: nat)
      ensures h == 0 <==> grid == []
    {
      |grid|
    }

    /** The invariant every constructed map satisfies. */
    predicate Valid() {
      AllValidCharacters(grid) && Rectangular(grid) && IsValidDimensions(Width(), Height())
    }

    predicate InBounds(x: int, y: int) {
      0 <= x < Width() && 0 <= y < Height()
    }

    /** The cell at (x, y), for coordinates known to be in bounds. */
    function At(x: nat, y: nat): char
      requires Valid() && InBounds(x, y)
    {
      grid[y][x]
    }

    /** `getCell`: bounds-checked access; out-of-range coordinates throw. A cell
        read is always in the alphabet. */
    function GetCell(x: nat, y: nat): (r: Result<char, MapError>)
      requires Valid()
      ensures r.Err? <==> x >= Width() || y >= Height()
      ensures r.Err? ==> r.error == OutOfRange
      ensures r.Ok? ==> r.value == At(x, y) && IsValidCellCharacter(r.value)
    {
      if x >= Width() || y >= Height() then Err(OutOfRange) else Ok(grid[y][x])
    }

    /** No cell scanned before (x, y) holds `c`. */
    predicate NoneBefore(c: char, x: int, y: int)
      requires Valid()
    {
      forall y', x' :: 0 <= y' < Height() && 0 <= x' < Width() && ScannedBefore(x', y', x, y) ==> grid[y'][x'] != c
    }

    /** `getBasePosition`: the first cell in row-major order holding `c`; it
        throws when no cell holds `c`. */
    method GetBasePosition(c: char) returns (r: Result<(nat, nat), MapError>)
      requires Valid()
      ensures r.Ok? ==> InBounds(r.value.0, r.value.1) && At(r.value.0, r.value.1) == c
                        && NoneBefore(c, r.value.0, r.value.1)
      ensures r.Err? ==> r.error == NoBasePosition && NoneBefore(c, 0, Height())
    {
      var y := 0;
      while y < Height()
        invariant 0 <= y <= Height()
        invariant NoneBefore(c, 0, y)
      {
        var x := 0;
        while x < Width()
          invariant 0 <= x <= Width()
          invariant NoneBefore(c, x, y)
        {
          var cell := GetCell(x, y);
          if cell.value == c {
            return Ok((x, y));
          }
          x := x + 1;
        }
        y := y + 1;
      }
      return Err(NoBasePosition);
    }
  }

  /** The error map construction reports for lines that are not a valid map,
      in the order the checks run: characters while reading, then row widths,
      then dimensions. */
  function ParseError(lines: seq<string>): MapError {
    if !AllValidCharacters(lines) then InvalidCharacter
    else if !Rectangular(lines) then InconsistentRowWidth
    else InvalidDimensions
  }

  /** The map constructor: reads the lines into a grid, rejecting a character
      outside the alphabet, then `validateMapData`. It succeeds exactly on
      non-empty rectangular grids over the alphabet, and then the grid is the
      lines, its height the number of lines and its width the first line's
      length. */
  method Parse(lines: seq<string>) returns (r: Result<Map, MapError>)
    ensures r.Ok? <==> AllValidCharacters(lines) && Rectangular(lines) && |lines| > 0 && |lines[0]| > 0
    ensures r.Ok? ==> r.value.grid == lines && r.value.Valid()
                      && r.value.Height() == |lines| && r.value.Width() == |lines[0]|
    ensures r.Err? ==> r.error == ParseError(lines)
  {
    var grid: seq<seq<char>> := [];
    var i := 0;
    while i < |lines|
      invariant 0 <= i <= |lines|
      invariant grid == lines[..i]
      invariant AllValidCharacters(grid)
    {
      var row: seq<char> := [];
      var j := 0;
      while j < |lines[i]|
        invariant 0 <= j <= |lines[i]|
        invariant row == lines[i][..j]
        invariant forall k :: 0 <= k < j ==> IsValidCellCharacter(row[k])
      {
        var c := lines[i][j];
        if !IsValidCellCharacter(c) {
          return Err(InvalidCharacter);
        }
        row := row + [c];
        j := j + 1;
      }
      assert row == lines[i];
      grid := grid + [row];
      i := i + 1;
    }
    assert grid == lines;
    // validateMapData
    var m := Map(grid);
    var width := m.Width();
    var height := m.Height();
    for k := 0 to |grid|
      invariant forall k' :: 0 <= k' < k ==> |grid[k']| == width
    {
      if |grid[k]| != width {
        return Err(InconsistentRowWidth);
      }
    }
    if !IsValidDimensions(width, height) {
      return Err(InvalidDimensions);
    }
    return Ok(m);
  }
}
