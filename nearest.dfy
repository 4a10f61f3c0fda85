/** `findSpecifiedObject`: the scan for the nearest cell holding a given
    character, over the distance field of a breadth-first search. */
module Nearest {
  import opened Common
  import opened Grid
  import opened Pathfinding

  /** The running choice of the scan: a cell and its distance; the distance
      -1 means "nothing chosen yet" (and also "chosen, but unreachable"). */
  datatype Candidate = Candidate(x: int, y: int, d: int)

  const Initial := Candidate(0, 0, -1)

  /** One cell of the scan: a matching cell replaces the choice when nothing
      is chosen yet or when its distance is strictly smaller. */
  function Consider(m: Map, dist: seq<seq<int>>, target: char, x: nat, y: nat, acc: Candidate): Candidate
    requires m.Valid() && Shaped(m, dist) && m.InBounds(x, y)
  {
    if m.At(x, y) == target && (acc.d == -1 || Get(dist, (x, y)) < acc.d) then Candidate(x, y, Get(dist, (x, y)))
    else acc
  }

  /** The first x cells of row y, scanned from acc. */
  function RowScan(m: Map, dist: seq<seq<int>>, target: char, y: nat, x: nat, acc: Candidate): Candidate
    requires m.Valid() && Shaped(m, dist) && y < m.Height() && x <= m.Width()
  {
    if x == 0 then acc else Consider(m, dist, target, x - 1, y, RowScan(m, dist, target, y, x - 1, acc))
  }

  /** The first y rows, scanned from the initial choice. */
  function GridScan(m: Map, dist: seq<seq<int>>, target: char, y: nat): Candidate
    requires m.Valid() && Shaped(m, dist) && y <= m.Height()
  {
    if y == 0 then Initial else RowScan(m, dist, target, y - 1, m.Width(), GridScan(m, dist, target, y - 1))
  }

  /** The answer for a distance field: the chosen cell, stored (as the source
      does) in an `unsigned short` pair. */
  function Answer(m: Map, dist: seq<seq<int>>, target: char): (u16, u16)
    requires m.Valid() && Shaped(m, dist)
  {
    var c := GridScan(m, dist, target, m.Height());
    (ToU16(c.x), ToU16(c.y))
  }

  /** A distance field is unique: two fields from the same start agree. */
  lemma DistanceFieldUnique(m: Map, s: Cell, d1: seq<seq<int>>, d2: seq<seq<int>>)
    requires m.Valid() && DistanceField(m, s, d1) && DistanceField(m, s, d2)
    ensures d1 == d2
  {
    forall y | 0 <= y < |d1|
      ensures d1[y] == d2[y]
    {
      forall x | 0 <= x < |d1[y]|
        ensures d1[y][x] == d2[y][x]
      {
        var c := (x, y);
        ShortestWalks(m, s, d1, c);
        ShortestWalks(m, s, d2, c);
        if Get(d1, c) >= 0 {
          assert ReachableIn(m, s, c, Get(d1, c));
        }
        if Get(d2, c) >= 0 {
          assert ReachableIn(m, s, c, Get(d2, c));
        }
      }
    }
  }

  /** `findSpecifiedObject`: a breadth-first search from the start, then a
      row-major scan keeping the running minimum over the cells that hold
      `target`; the nearest cell's coordinates are returned, or (0, 0) when
      no cell holds `target`. */
  method FindSpecifiedObject(m: Map, startX: u16, startY: u16, target: char) returns (r: (u16, u16))
    requires m.Valid() && m.InBounds(startX, startY)
    ensures forall dist :: DistanceField(m, (startX, startY), dist) ==> r == Answer(m, dist, target)
    ensures exists dist :: DistanceField(m, (startX, startY), dist) && r == Answer(m, dist, target)
  {
    var width := m.Width();
    var height := m.Height();
    var distance := PerformBFS(m, startX, startY);
    var nearestX, nearestY, nearestDistance := 0, 0, -1;
    var y := 0;
    while y < height
      invariant 0 <= y <= height
      invariant Candidate(nearestX, nearestY, nearestDistance) == GridScan(m, distance, target, y)
    {
      ghost var rowStart := GridScan(m, distance, target, y);
      var x := 0;
      while x < width
        invariant 0 <= x <= width
        invariant Candidate(nearestX, nearestY, nearestDistance) == RowScan(m, distance, target, y, x, rowStart)
      {
        if m.At(x, y) == target && (nearestDistance == -1 || distance[y][x] < nearestDistance) {
          nearestX := x;
          nearestY := y;
          nearestDistance := distance[y][x];
        }
        x := x + 1;
      }
      y := y + 1;
    }
    r := (ToU16(nearestX), ToU16(nearestY));
    forall dist | DistanceField(m, (startX, startY), dist)
      ensures r == Answer(m, dist, target)
    {
      DistanceFieldUnique(m, (startX, startY), dist, distance);
    }
  }

  // ---------------------------------------------------------------------
  // What the scan computes.

  /** Cell c is among the first x cells of row y or in an earlier row. */
  predicate Scanned(m: Map, c: Cell, y: int, x: int) {
    InMap(m, c) && ScannedBefore(c.0, c.1, x, y)
  }

  predicate Matches(m: Map, target: char, c: Cell)
    requires m.Valid()
  {
    InMap(m, c) && m.At(c.0, c.1) == target
  }

  /** No cell scanned so far holds `target`. */
  ghost predicate NoMatchBefore(m: Map, target: char, y: int, x: int)
    requires m.Valid()
  {
    forall c :: Scanned(m, c, y, x) ==> !Matches(m, target, c)
  }

  lemma {:induction false} RowScanNoMatch(m: Map, dist: seq<seq<int>>, target: char, y: nat, x: nat, acc: Candidate)
    requires m.Valid() && Shaped(m, dist) && y < m.Height() && x <= m.Width()
    requires forall x' :: 0 <= x' < x ==> !Matches(m, target, (x', y))
    ensures RowScan(m, dist, target, y, x, acc) == acc
  {
    if x > 0 {
      RowScanNoMatch(m, dist, target, y, x - 1, acc);
      assert !Matches(m, target, (x - 1, y));
    }
  }

  lemma {:induction false} GridScanNoMatch(m: Map, dist: seq<seq<int>>, target: char, y: nat)
    requires m.Valid() && Shaped(m, dist) && y <= m.Height()
    requires NoMatchBefore(m, target, y, 0)
    ensures GridScan(m, dist, target, y) == Initial
  {
    if y > 0 {
      assert NoMatchBefore(m, target, y - 1, 0) by {
        forall c | Scanned(m, c, y - 1, 0)
          ensures !Matches(m, target, c)
        {
          assert Scanned(m, c, y, 0);
        }
      }
      GridScanNoMatch(m, dist, target, y - 1);
      var row := y - 1;
      forall x' | 0 <= x' < m.Width()
        ensures !Matches(m, target, (x', row))
      {
        assert Scanned(m, (x', row), y, 0);
      }
      RowScanNoMatch(m, dist, target, row, m.Width(), Initial);
    }
  }

  /** With no cell holding `target`, the answer is (0, 0). */
  lemma NoMatchGivesOrigin(m: Map, dist: seq<seq<int>>, target: char)
    requires m.Valid() && Shaped(m, dist)
    requires forall c :: InMap(m, c) ==> !Matches(m, target, c)
    ensures Answer(m, dist, target) == (0, 0)
  {
    GridScanNoMatch(m, dist, target, m.Height());
  }

  /** The choice is the best of the cells scanned so far: with every matching
      cell reachable, either nothing matched yet and the choice is the initial
      one, or the choice is a scanned matching cell with its own distance, no
      scanned match is nearer, and every scanned match before it in row-major
      order is strictly farther. */
  ghost predicate BestSoFar(m: Map, dist: seq<seq<int>>, target: char, acc: Candidate, y: int, x: int)
    requires m.Valid() && Shaped(m, dist)
  {
    if NoMatchBefore(m, target, y, x) then acc == Initial
    else
      && Scanned(m, (acc.x, acc.y), y, x) && Matches(m, target, (acc.x, acc.y))
      && acc.d == Get(dist, (acc.x, acc.y)) && acc.d >= 0
      && forall c :: Scanned(m, c, y, x) && Matches(m, target, c) ==>
           Get(dist, c) >= acc.d && (ScannedBefore(c.0, c.1, acc.x, acc.y) ==> Get(dist, c) > acc.d)
  }

  /** Every cell holding `target` is reachable. */
  ghost predicate AllMatchesReachable(m: Map, dist: seq<seq<int>>, target: char)
    requires m.Valid() && Shaped(m, dist)
  {
    forall c :: Matches(m, target, c) ==> Get(dist, c) >= 0
  }

  lemma ConsiderBest(m: Map, dist: seq<seq<int>>, target: char, acc: Candidate, y: nat, x: nat)
    requires m.Valid() && Shaped(m, dist) && m.InBounds(x, y) && AllMatchesReachable(m, dist, target)
    requires BestSoFar(m, dist, target, acc, y, x)
    ensures BestSoFar(m, dist, target, Consider(m, dist, target, x, y, acc), y, x + 1)
  {
    var e: Cell := (x, y);
    var acc' := Consider(m, dist, target, x, y, acc);
    forall c | Scanned(m, c, y, x + 1)
      ensures Scanned(m, c, y, x) || c == e
    {
    }
    if !Matches(m, target, e) {
      assert acc' == acc;
      if NoMatchBefore(m, target, y, x) {
        assert NoMatchBefore(m, target, y, x + 1);
      }
    } else if NoMatchBefore(m, target, y, x) {
      assert Get(dist, e) >= 0;
      assert acc' == Candidate(x, y, Get(dist, e));
      assert !NoMatchBefore(m, target, y, x + 1) by {
        assert Scanned(m, e, y, x + 1);
      }
    } else {
      assert Get(dist, e) >= 0;
      assert !NoMatchBefore(m, target, y, x + 1) by {
        assert Scanned(m, (acc.x, acc.y), y, x + 1);
      }
    }
  }

  lemma {:induction false} RowScanBest(m: Map, dist: seq<seq<int>>, target: char, y: nat, x: nat, acc: Candidate)
    requires m.Valid() && Shaped(m, dist) && y < m.Height() && x <= m.Width() && AllMatchesReachable(m, dist, target)
    requires BestSoFar(m, dist, target, acc, y, 0)
    ensures BestSoFar(m, dist, target, RowScan(m, dist, target, y, x, acc), y, x)
  {
    if x > 0 {
      var before := RowScan(m, dist, target, y, x - 1, acc);
      RowScanBest(m, dist, target, y, x - 1, acc);
      ConsiderBest(m, dist, target, before, y, x - 1);
      assert RowScan(m, dist, target, y, x, acc) == Consider(m, dist, target, x - 1, y, before);
    }
  }

  /** A full row scanned is the same prefix as the start of the next row. */
  lemma RowComplete(m: Map, dist: seq<seq<int>>, target: char, acc: Candidate, y: nat)
    requires m.Valid() && Shaped(m, dist) && BestSoFar(m, dist, target, acc, y, m.Width())
    ensures BestSoFar(m, dist, target, acc, y + 1, 0)
  {
    forall c
      ensures Scanned(m, c, y, m.Width()) <==> Scanned(m, c, y + 1, 0)
    {
    }
  }

  lemma {:induction false} GridScanBest(m: Map, dist: seq<seq<int>>, target: char, y: nat)
    requires m.Valid() && Shaped(m, dist) && y <= m.Height() && AllMatchesReachable(m, dist, target)
    ensures BestSoFar(m, dist, target, GridScan(m, dist, target, y), y, 0)
  {
    if y > 0 {
      GridScanBest(m, dist, target, y - 1);
      RowScanBest(m, dist, target, y - 1, m.Width(), GridScan(m, dist, target, y - 1));
      RowComplete(m, dist, target, GridScan(m, dist, target, y), y - 1);
    }
  }

  /** When every cell holding `target` is reachable and at least one exists,
      the answer is such a cell at the smallest distance, and every matching
      cell before it in row-major order is strictly farther (ties go to the
      first). */
  lemma NearestMatch(m: Map, dist: seq<seq<int>>, target: char, e: Cell)
    requires m.Valid() && Shaped(m, dist) && AllMatchesReachable(m, dist, target) && Matches(m, target, e)
    ensures var c := GridScan(m, dist, target, m.Height());
            && Matches(m, target, (c.x, c.y)) && c.d == Get(dist, (c.x, c.y)) && c.d >= 0
            && (forall c' :: Matches(m, target, c') ==> Get(dist, c') >= c.d)
            && (forall c' :: Matches(m, target, c') && ScannedBefore(c'.0, c'.1, c.x, c.y) ==> Get(dist, c') > c.d)
  {
    GridScanBest(m, dist, target, m.Height());
    assert Scanned(m, e, m.Height(), 0);
    forall c' | Matches(m, target, c')
      ensures Scanned(m, c', m.Height(), 0)
    {
    }
  }

  /** Cell e holds `target` and is reached from s by a walk of n steps, and
      no matching cell is reached by a shorter walk. */
  ghost predicate NearestCell(m: Map, s: Cell, target: char, e: Cell, n: nat)
    requires m.Valid()
  {
    && Matches(m, target, e) && ReachableIn(m, s, e, n)
    && forall c, k: nat :: Matches(m, target, c) && ReachableIn(m, s, c, k) ==> n <= k
  }

  /** On a map narrower and shorter than 2^16 whose matching cells can all
      be reached from the start, the answer is a matching cell, and no
      walk from the start to any matching cell is shorter than the shortest
      walk to the answer. */
  lemma NearestAnswer(m: Map, s: Cell, dist: seq<seq<int>>, target: char, e: Cell)
    requires m.Valid() && m.Width() <= 0x1_0000 && m.Height() <= 0x1_0000
    requires DistanceField(m, s, dist) && Matches(m, target, e)
    requires forall c :: Matches(m, target, c) ==> exists n: nat :: ReachableIn(m, s, c, n)
    ensures var r := Answer(m, dist, target);
            exists n: nat {:trigger ReachableIn(m, s, (r.0 as int, r.1 as int), n)} :: NearestCell(m, s, target, (r.0 as int, r.1 as int), n)
  {
    forall c | Matches(m, target, c)
      ensures Get(dist, c) >= 0
    {
      ShortestWalks(m, s, dist, c);
    }
    NearestMatch(m, dist, target, e);
    var g := GridScan(m, dist, target, m.Height());
    assert Answer(m, dist, target) == (g.x, g.y);
    ShortestWalks(m, s, dist, (g.x, g.y));
    forall c, n: nat | Matches(m, target, c) && ReachableIn(m, s, c, n)
      ensures Get(dist, (g.x, g.y)) <= n
    {
      ShortestWalks(m, s, dist, c);
    }
    assert NearestCell(m, s, target, (g.x, g.y), Get(dist, (g.x, g.y)));
  }

  /** A matching but unreachable cell always takes the choice, whatever was
      chosen before, since -1 is smaller than every distance. */
  lemma UnreachableTakesOver(m: Map, dist: seq<seq<int>>, target: char, x: nat, y: nat, acc: Candidate)
    requires m.Valid() && Shaped(m, dist) && m.InBounds(x, y)
    requires m.At(x, y) == target && Get(dist, (x, y)) == -1 && acc.d >= -1
    ensures Consider(m, dist, target, x, y, acc) == Candidate(x, y, -1)
  {
  }

  /** Every entry of the field is at least -1, as in a distance field. */
  ghost predicate Bounded(m: Map, dist: seq<seq<int>>)
    requires m.Valid() && Shaped(m, dist)
  {
    forall c :: InMap(m, c) ==> Get(dist, c) >= -1
  }

  /** e holds the target and no cell after it in row-major order does. */
  ghost predicate LastMatch(m: Map, target: char, e: Cell)
    requires m.Valid()
  {
    Matches(m, target, e) && forall c :: Matches(m, target, c) ==> !ScannedBefore(e.0, e.1, c.0, c.1)
  }

  lemma {:induction false} RowScanBounded(m: Map, dist: seq<seq<int>>, target: char, y: nat, x: nat, acc: Candidate)
    requires m.Valid() && Shaped(m, dist) && y < m.Height() && x <= m.Width()
    requires Bounded(m, dist) && acc.d >= -1
    ensures RowScan(m, dist, target, y, x, acc).d >= -1
  {
    if x > 0 {
      RowScanBounded(m, dist, target, y, x - 1, acc);
      assert InMap(m, (x - 1, y));
    }
  }

  lemma {:induction false} GridScanBounded(m: Map, dist: seq<seq<int>>, target: char, y: nat)
    requires m.Valid() && Shaped(m, dist) && y <= m.Height() && Bounded(m, dist)
    ensures GridScan(m, dist, target, y).d >= -1
  {
    if y > 0 {
      GridScanBounded(m, dist, target, y - 1);
      RowScanBounded(m, dist, target, y - 1, m.Width(), GridScan(m, dist, target, y - 1));
    }
  }

  /** Hence, if the last matching cell in row-major order is unreachable, the
      answer is that cell, however near the earlier matches are. */
  lemma LastUnreachableWins(m: Map, dist: seq<seq<int>>, target: char, e: Cell)
    requires m.Valid() && Shaped(m, dist) && Bounded(m, dist)
    requires LastMatch(m, target, e) && Get(dist, e) == -1
    ensures Answer(m, dist, target) == (ToU16(e.0), ToU16(e.1))
  {
    GridScanFrom(m, dist, target, e, m.Height());
  }

  /** Once the scan has passed e, the choice is e. */
  lemma {:induction false} GridScanFrom(m: Map, dist: seq<seq<int>>, target: char, e: Cell, y: nat)
    requires m.Valid() && Shaped(m, dist) && Bounded(m, dist)
    requires LastMatch(m, target, e) && Get(dist, e) == -1
    requires e.1 < y <= m.Height()
    ensures GridScan(m, dist, target, y) == Candidate(e.0, e.1, -1)
  {
    var row := y - 1;
    var acc := GridScan(m, dist, target, row);
    if row == e.1 {
      GridScanBounded(m, dist, target, row);
      RowScanFrom(m, dist, target, e, m.Width(), acc);
    } else {
      GridScanFrom(m, dist, target, e, row);
      forall x' | 0 <= x' < m.Width()
        ensures !Matches(m, target, (x', row))
      {
      }
      RowScanNoMatch(m, dist, target, row, m.Width(), acc);
    }
  }

  lemma {:induction false} RowScanFrom(m: Map, dist: seq<seq<int>>, target: char, e: Cell, x: nat, acc: Candidate)
    requires m.Valid() && Shaped(m, dist) && Bounded(m, dist) && acc.d >= -1
    requires LastMatch(m, target, e) && Get(dist, e) == -1
    requires e.0 < x <= m.Width()
    ensures RowScan(m, dist, target, e.1, x, acc) == Candidate(e.0, e.1, -1)
  {
    if x - 1 > e.0 {
      RowScanFrom(m, dist, target, e, x - 1, acc);
      assert !Matches(m, target, (x - 1, e.1));
    } else {
      RowScanBounded(m, dist, target, e.1, e.0, acc);
    }
  }
}
