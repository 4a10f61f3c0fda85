/** `performBFS`: the breadth-first distance field over the map. Cells are
    (x, y) pairs; a distance grid is indexed `dist[y][x]` and holds -1 for a
    cell the search never reached. */
module Pathfinding {
  import opened Common
  import opened Grid

  type Cell = (int, int)

  predicate InMap(m: Map, c: Cell) {
    m.InBounds(c.0, c.1)
  }

  /** A cell the search may enter: inside the map and not an obstacle. */
  predicate Open(m: Map, c: Cell)
    requires m.Valid()
  {
    InMap(m, c) && m.At(c.0, c.1) != '9'
  }

  /** The neighbour offsets, in the source's order: left, right, up, down. */
  function Delta(k: int): Cell
    requires 0 <= k < 4
  {
    if k == 0 then (-1, 0) else if k == 1 then (1, 0) else if k == 2 then (0, -1) else (0, 1)
  }

  /** The k-th neighbour as the source computes it: the sum is stored in an
      `unsigned short`, so stepping left from x = 0 gives x = 65535 (outside
      every map narrower than 65536 cells). */
  function Neighbour(c: Cell, k: int): Cell
    requires 0 <= k < 4
  {
    (ToU16(c.0 + Delta(k).0), ToU16(c.1 + Delta(k).1))
  }

  /** One step of the search: from u to an open neighbour v. */
  predicate Step(m: Map, u: Cell, v: Cell)
    requires m.Valid()
  {
    Open(m, v) && (v == Neighbour(u, 0) || v == Neighbour(u, 1) || v == Neighbour(u, 2) || v == Neighbour(u, 3))
  }

  /** A walk of steps from s; its length is |p| - 1. */
  ghost predicate IsPath(m: Map, p: seq<Cell>, s: Cell)
    requires m.Valid()
  {
    |p| >= 1 && p[0] == s && forall i :: 0 <= i < |p| - 1 ==> Step(m, p[i], p[i + 1])
  }

  /** The distance grid has the map's shape. */
  predicate Shaped(m: Map, dist: seq<seq<int>>) {
    |dist| == m.Height() && forall y :: 0 <= y < |dist| ==> |dist[y]| == m.Width()
  }

  function Get(dist: seq<seq<int>>, c: Cell): int
    requires 0 <= c.1 < |dist| && 0 <= c.0 < |dist[c.1]|
  {
    dist[c.1][c.0]
  }

  /** Every open neighbour of u has been reached, at most one further than u. */
  predicate Closed(m: Map, dist: seq<seq<int>>, u: Cell)
    requires m.Valid() && Shaped(m, dist) && InMap(m, u)
  {
    forall k :: 0 <= k < 4 && Open(m, Neighbour(u, k)) ==>
      Get(dist, Neighbour(u, k)) >= 0 && Get(dist, Neighbour(u, k)) <= Get(dist, u) + 1
  }

  /** The local conditions of a breadth-first distance field from s: 0 at s
      and nowhere else, every other value at least -1, every cell at distance
      d >= 1 one step from a cell at distance d - 1, and every reached cell's
      open neighbours reached within one more step. */
  ghost predicate DistanceField(m: Map, s: Cell, dist: seq<seq<int>>)
    requires m.Valid()
  {
    && Shaped(m, dist) && InMap(m, s) && Get(dist, s) == 0
    && (forall c :: InMap(m, c) ==> Get(dist, c) >= -1)
    && (forall c :: InMap(m, c) && Get(dist, c) == 0 ==> c == s)
    && (forall c {:trigger HasPredecessor(m, dist, c)} :: InMap(m, c) && Get(dist, c) >= 1 ==> HasPredecessor(m, dist, c))
    && (forall c {:trigger Closed(m, dist, c)} :: InMap(m, c) && Get(dist, c) >= 0 ==> Closed(m, dist, c))
  }

  /** c is one step from some cell one closer to the start. (The triggers
      above keep the solver from chasing predecessors of predecessors, or
      neighbours of neighbours, across the whole grid.) */
  ghost predicate HasPredecessor(m: Map, dist: seq<seq<int>>, c: Cell)
    requires m.Valid() && Shaped(m, dist) && InMap(m, c)
  {
    exists u :: InMap(m, u) && Get(dist, u) == Get(dist, c) - 1 && Step(m, u, c)
  }

  ghost function AllCells(m: Map): set<Cell> {
    set x, y | 0 <= x < m.Width() && 0 <= y < m.Height() :: (x, y)
  }

  predicate IsU16Cell(c: Cell) {
    0 <= c.0 < 0x1_0000 && 0 <= c.1 < 0x1_0000
  }

  /** The queue holds each reached cell once; `index` is its inverse. */
  ghost predicate Indexed(m: Map, q: seq<Cell>, index: map<Cell, nat>) {
    && |q| >= 1
    && (forall i :: 0 <= i < |q| ==> InMap(m, q[i]) && IsU16Cell(q[i]) && q[i] in index && index[q[i]] == i)
    && (forall c :: c in index ==> index[c] < |q| && q[index[c]] == c)
    && index.Keys <= AllCells(m) && |index| == |q|
  }

  /** The reached cells are exactly the indexed ones; the rest hold -1. */
  ghost predicate Reached(m: Map, dist: seq<seq<int>>, index: map<Cell, nat>)
    requires Shaped(m, dist)
  {
    forall c :: InMap(m, c) ==> (Get(dist, c) >= 0 <==> c in index) && Get(dist, c) >= -1
  }

  /** The start is at 0 and is the only cell at 0. */
  ghost predicate Rooted(m: Map, s: Cell, dist: seq<seq<int>>)
    requires Shaped(m, dist)
  {
    InMap(m, s) && Get(dist, s) == 0 && forall c :: InMap(m, c) && Get(dist, c) == 0 ==> c == s
  }

  /** p is a valid parent for c: c is reached at d >= 1 and p is one step
      back from it, at d - 1. */
  predicate ParentOk(m: Map, dist: seq<seq<int>>, p: Cell, c: Cell)
    requires m.Valid() && Shaped(m, dist)
  {
    InMap(m, c) && Get(dist, c) >= 1 && InMap(m, p) && Get(dist, p) == Get(dist, c) - 1 && Step(m, p, c)
  }

  /** Every other reached cell was discovered from its `parent`. (The
      trigger on `parent[c]` keeps the solver from following parents of
      parents.) */
  ghost predicate Parented(m: Map, dist: seq<seq<int>>, parent: map<Cell, Cell>)
    requires m.Valid() && Shaped(m, dist)
  {
    && (forall c :: InMap(m, c) && Get(dist, c) >= 1 ==> c in parent)
    && (forall c {:trigger parent[c]} :: c in parent ==> ParentOk(m, dist, parent[c], c))
  }

  /** The queue is in order of nondecreasing distance. */
  ghost predicate Monotone(m: Map, dist: seq<seq<int>>, q: seq<Cell>)
    requires Shaped(m, dist)
  {
    forall i, j :: 0 <= i <= j < |q| && InMap(m, q[i]) && InMap(m, q[j]) ==> Get(dist, q[i]) <= Get(dist, q[j])
  }

  /** The events of the search so far. */
  ghost predicate Searched(m: Map, s: Cell, dist: seq<seq<int>>, q: seq<Cell>, index: map<Cell, nat>, parent: map<Cell, Cell>)
    requires m.Valid()
  {
    && Shaped(m, dist) && Indexed(m, q, index) && Reached(m, dist, index) && Rooted(m, s, dist)
    && Parented(m, dist, parent) && Monotone(m, dist, q)
  }

  /** Setting one cell of a distance grid changes that cell only. */
  lemma SetCell(m: Map, dist: seq<seq<int>>, v: Cell, d: int)
    requires Shaped(m, dist) && InMap(m, v)
    ensures var dist' := dist[v.1 := dist[v.1][v.0 := d]];
            && Shaped(m, dist') && Get(dist', v) == d
            && forall c :: InMap(m, c) && c != v ==> Get(dist', c) == Get(dist, c)
  {
  }

  /** dist' agrees with dist on every cell dist has reached. */
  ghost predicate Extends(m: Map, dist: seq<seq<int>>, dist': seq<seq<int>>) {
    && Shaped(m, dist) && Shaped(m, dist')
    && forall c :: InMap(m, c) && Get(dist, c) >= 0 ==> Get(dist', c) == Get(dist, c)
  }

  /** The first n queued cells have all their open neighbours reached. */
  ghost predicate ClosedUpTo(m: Map, dist: seq<seq<int>>, q: seq<Cell>, n: int)
    requires m.Valid() && Shaped(m, dist)
  {
    forall i {:trigger Closed(m, dist, q[i])} :: 0 <= i < n && i < |q| ==> InMap(m, q[i]) && Closed(m, dist, q[i])
  }

  /** The neighbours 0..k-1 of u are reached, at most one further than u. */
  ghost predicate ClosedBelow(m: Map, dist: seq<seq<int>>, u: Cell, k: int)
    requires m.Valid() && Shaped(m, dist) && InMap(m, u)
  {
    forall k' :: 0 <= k' < k && k' < 4 && Open(m, Neighbour(u, k')) ==>
      Get(dist, Neighbour(u, k')) >= 0 && Get(dist, Neighbour(u, k')) <= Get(dist, u) + 1
  }

  // The lemmas below each carry one part of the search's consistency over
  // the discovery of one new cell v, given how the grid changed.

  /** The frame of setting v: Get changes at v only. */
  ghost predicate SetAt(m: Map, dist: seq<seq<int>>, dist': seq<seq<int>>, v: Cell)
    requires Shaped(m, dist) && Shaped(m, dist')
  {
    InMap(m, v) && forall c :: InMap(m, c) && c != v ==> Get(dist', c) == Get(dist, c)
  }

  lemma IndexedStep(m: Map, q: seq<Cell>, index: map<Cell, nat>, v: Cell)
    requires Indexed(m, q, index) && InMap(m, v) && IsU16Cell(v) && v !in index
    ensures Indexed(m, q + [v], index[v := |q|])
  {
    var q', index' := q + [v], index[v := |q|];
    assert v in AllCells(m);
    forall i | 0 <= i < |q'|
      ensures InMap(m, q'[i]) && IsU16Cell(q'[i]) && q'[i] in index' && index'[q'[i]] == i
    {
      if i < |q| { assert q'[i] == q[i]; }
    }
  }

  lemma ReachedStep(m: Map, dist: seq<seq<int>>, dist': seq<seq<int>>, index: map<Cell, nat>, v: Cell, n: nat)
    requires Shaped(m, dist) && Shaped(m, dist') && Reached(m, dist, index) && SetAt(m, dist, dist', v)
    requires v !in index && Get(dist', v) >= 0
    ensures Reached(m, dist', index[v := n])
  {
  }

  lemma RootedStep(m: Map, s: Cell, dist: seq<seq<int>>, dist': seq<seq<int>>, v: Cell)
    requires Shaped(m, dist) && Shaped(m, dist') && Rooted(m, s, dist) && SetAt(m, dist, dist', v)
    requires Get(dist, v) == -1 && Get(dist', v) >= 1
    ensures Rooted(m, s, dist') && Extends(m, dist, dist')
  {
  }

  lemma ParentedStep(m: Map, dist: seq<seq<int>>, dist': seq<seq<int>>, parent: map<Cell, Cell>, u: Cell, v: Cell)
    requires m.Valid() && Shaped(m, dist) && Shaped(m, dist') && Parented(m, dist, parent) && SetAt(m, dist, dist', v)
    requires InMap(m, u) && Get(dist, u) >= 0 && Step(m, u, v) && Get(dist, v) == -1
    requires Get(dist', v) == Get(dist, u) + 1
    ensures Parented(m, dist', parent[v := u])
  {
    var parent' := parent[v := u];
    forall c | c in parent'
      ensures ParentOk(m, dist', parent'[c], c)
    {
      if c != v {
        var p := parent[c];
        assert parent'[c] == p;
        assert ParentOk(m, dist, p, c);
        assert Get(dist', p) == Get(dist, p) && Get(dist', c) == Get(dist, c);
      }
    }
  }

  lemma MonotoneStep(m: Map, dist: seq<seq<int>>, dist': seq<seq<int>>, q: seq<Cell>, v: Cell)
    requires Shaped(m, dist) && Shaped(m, dist') && Monotone(m, dist, q) && SetAt(m, dist, dist', v) && |q| >= 1
    requires forall i :: 0 <= i < |q| ==> InMap(m, q[i]) && q[i] != v
    requires Get(dist, q[|q| - 1]) <= Get(dist', v)
    ensures Monotone(m, dist', q + [v])
  {
    var q' := q + [v];
    forall i, j | 0 <= i <= j < |q'|
      ensures Get(dist', q'[i]) <= Get(dist', q'[j])
    {
      if j < |q| {
        assert q'[i] == q[i] && q'[j] == q[j];
      } else if i < |q| {
        assert q'[i] == q[i];
        assert Get(dist, q[i]) <= Get(dist, q[|q| - 1]);
      }
    }
  }

  /** Reaching a new cell v from a queued u, at distance d one more than
      u's, keeps the search consistent. */
  lemma Discover(m: Map, s: Cell, dist: seq<seq<int>>, q: seq<Cell>, index: map<Cell, nat>, parent: map<Cell, Cell>,
                 u: Cell, v: Cell, d: int)
    requires m.Valid() && Searched(m, s, dist, q, index, parent)
    requires u in index && Step(m, u, v) && IsU16Cell(v) && Get(dist, v) == -1
    requires d == Get(dist, u) + 1 && Get(dist, q[|q| - 1]) <= d
    ensures var dist' := dist[v.1 := dist[v.1][v.0 := d]];
            && Searched(m, s, dist', q + [v], index[v := |q|], parent[v := u])
            && Extends(m, dist, dist') && Get(dist', v) == d && Get(dist', u) == Get(dist, u)
  {
    var dist' := dist[v.1 := dist[v.1][v.0 := d]];
    SetCell(m, dist, v, d);
    assert v !in index;
    IndexedStep(m, q, index, v);
    ReachedStep(m, dist, dist', index, v, |q|);
    RootedStep(m, s, dist, dist', v);
    ParentedStep(m, dist, dist', parent, u, v);
    MonotoneStep(m, dist, dist', q, v);
  }

  lemma ClosedCellExtends(m: Map, dist: seq<seq<int>>, dist': seq<seq<int>>, u: Cell)
    requires m.Valid() && Extends(m, dist, dist') && InMap(m, u) && Get(dist, u) >= 0 && Closed(m, dist, u)
    ensures Closed(m, dist', u)
  {
  }

  lemma ClosedBelowExtends(m: Map, dist: seq<seq<int>>, dist': seq<seq<int>>, u: Cell, k: int)
    requires m.Valid() && Extends(m, dist, dist') && InMap(m, u) && Get(dist, u) >= 0 && ClosedBelow(m, dist, u, k)
    ensures ClosedBelow(m, dist', u, k)
  {
  }

  lemma ClosedExtends(m: Map, s: Cell, dist: seq<seq<int>>, dist': seq<seq<int>>, q: seq<Cell>, index: map<Cell, nat>,
                       parent: map<Cell, Cell>, q': seq<Cell>, n: int)
    requires m.Valid() && Searched(m, s, dist, q, index, parent) && Extends(m, dist, dist')
    requires 0 <= n <= |q| && q <= q' && ClosedUpTo(m, dist, q, n)
    ensures ClosedUpTo(m, dist', q', n)
  {
    forall i | 0 <= i < n
      ensures Closed(m, dist', q'[i])
    {
      assert q'[i] == q[i];
      assert Closed(m, dist, q[i]);
      ClosedCellExtends(m, dist, dist', q[i]);
    }
  }

  /** The grid the search starts from: -1 everywhere but 0 at s. */
  function StartGrid(m: Map, s: Cell): (dist: seq<seq<int>>)
    requires InMap(m, s)
    ensures Shaped(m, dist)
  {
    var dist := seq(m.Height(), _ => seq(m.Width(), _ => -1));
    dist[s.1 := dist[s.1][s.0 := 0]]
  }

  lemma StartSearched(m: Map, s: Cell)
    requires m.Valid() && InMap(m, s) && IsU16Cell(s)
    ensures Frontier(m, s, StartGrid(m, s), [s], map[s := 0], map[], 0)
  {
    var dist := StartGrid(m, s);
    assert s in AllCells(m);
    assert forall c :: InMap(m, c) && c != s ==> Get(dist, c) == -1;
  }

  /** When the queue is exhausted every reached cell is closed, and the
      parents give each cell at d >= 1 a predecessor at d - 1. */
  lemma SearchedField(m: Map, s: Cell, dist: seq<seq<int>>, q: seq<Cell>, index: map<Cell, nat>, parent: map<Cell, Cell>)
    requires m.Valid() && Frontier(m, s, dist, q, index, parent, |q|)
    ensures DistanceField(m, s, dist)
  {
    forall c | InMap(m, c) && Get(dist, c) >= 1
      ensures HasPredecessor(m, dist, c)
    {
      var u := parent[c];
      assert InMap(m, u) && Get(dist, u) == Get(dist, c) - 1 && Step(m, u, c);
    }
    forall c | InMap(m, c) && Get(dist, c) >= 0
      ensures Closed(m, dist, c)
    {
      assert q[index[c]] == c;
    }
  }

  /** Every reached cell is at most as far as the back of the queue. */
  lemma ReachedBounded(m: Map, s: Cell, dist: seq<seq<int>>, q: seq<Cell>, index: map<Cell, nat>, parent: map<Cell, Cell>, w: Cell)
    requires m.Valid() && Searched(m, s, dist, q, index, parent)
    requires InMap(m, w) && Get(dist, w) >= 0
    ensures Get(dist, w) <= Get(dist, q[|q| - 1])
  {
    assert q[index[w]] == w;
  }

  lemma ClosedBelowNext(m: Map, dist: seq<seq<int>>, u: Cell, k: nat)
    requires m.Valid() && Shaped(m, dist) && InMap(m, u) && k < 4 && ClosedBelow(m, dist, u, k)
    requires Open(m, Neighbour(u, k)) ==> 0 <= Get(dist, Neighbour(u, k)) <= Get(dist, u) + 1
    ensures ClosedBelow(m, dist, u, k + 1)
  {
  }

  /** The queue never holds more cells than the map has. */
  lemma QueueFits(m: Map, q: seq<Cell>, index: map<Cell, nat>)
    requires Indexed(m, q, index)
    ensures |q| <= |AllCells(m)|
  {
    var A, K := AllCells(m), index.Keys;
    assert |K| == |index|;
    assert A == K + (A - K);
    assert K * (A - K) == {};
  }

  lemma ClosedUpToNext(m: Map, dist: seq<seq<int>>, q: seq<Cell>, index: map<Cell, nat>, n: nat)
    requires m.Valid() && Shaped(m, dist) && n < |q| && Indexed(m, q, index)
    requires ClosedUpTo(m, dist, q, n) && ClosedBelow(m, dist, q[n], 4)
    ensures ClosedUpTo(m, dist, q, n + 1)
  {
    assert Closed(m, dist, q[n]);
    forall i | 0 <= i < n + 1 && i < |q|
      ensures InMap(m, q[i]) && Closed(m, dist, q[i])
    {
      if i < n {
        assert Closed(m, dist, q[i]);
      }
    }
  }

  /** The invariant of `performBFS`'s outer loop: the search is consistent,
      the queue's distances span at most one step from `head` to the back,
      and every cell before `head` is closed. */
  ghost predicate Frontier(m: Map, s: Cell, dist: seq<seq<int>>, q: seq<Cell>, index: map<Cell, nat>,
                           parent: map<Cell, Cell>, head: int)
    requires m.Valid()
  {
    && Searched(m, s, dist, q, index, parent) && 0 <= head <= |q|
    && (head < |q| ==> Get(dist, q[|q| - 1]) <= Get(dist, q[head]) + 1)
    && ClosedUpTo(m, dist, q, head)
  }

  /** The invariant of `performBFS`'s inner loop while the cell u, taken
      from position `head` of the queue q0 at distance du, has had its
      first k neighbours relaxed: the search is consistent, the queue has
      only grown, its back is at most du + 1, and every cell before `head`
      is closed, as are u's first k neighbours. */
  ghost predicate Relaxing(m: Map, s: Cell, dist: seq<seq<int>>, q: seq<Cell>, index: map<Cell, nat>,
                           parent: map<Cell, Cell>, q0: seq<Cell>, head: int, u: Cell, du: int, k: int)
    requires m.Valid()
  {
    && Searched(m, s, dist, q, index, parent) && 0 <= head < |q0| && q0 <= q && q[head] == u
    && Get(dist, u) == du && Get(dist, q[|q| - 1]) <= du + 1
    && (head + 1 < |q| ==> du <= Get(dist, q[head + 1]))
    && ClosedUpTo(m, dist, q, head) && ClosedBelow(m, dist, u, k)
  }

  lemma RelaxingStart(m: Map, s: Cell, dist: seq<seq<int>>, q: seq<Cell>, index: map<Cell, nat>,
                      parent: map<Cell, Cell>, head: int)
    requires m.Valid() && Frontier(m, s, dist, q, index, parent, head) && head < |q|
    ensures Relaxing(m, s, dist, q, index, parent, q, head, q[head], Get(dist, q[head]), 0)
  {
  }

  lemma RelaxingDone(m: Map, s: Cell, dist: seq<seq<int>>, q: seq<Cell>, index: map<Cell, nat>,
                     parent: map<Cell, Cell>, q0: seq<Cell>, head: int, u: Cell, du: int)
    requires m.Valid() && Relaxing(m, s, dist, q, index, parent, q0, head, u, du, 4)
    ensures Frontier(m, s, dist, q, index, parent, head + 1)
  {
    ClosedUpToNext(m, dist, q, index, head);
  }

  /** One step of `performBFS`'s inner loop: the k-th neighbour v of the cell
      u just taken from the queue, if it lies inside the map, is not an
      obstacle and is still at -1, gets u's distance plus one and joins the
      back of the queue. */
  method Relax(m: Map, ghost s: Cell, dist: seq<seq<int>>, q: seq<Cell>, ghost index: map<Cell, nat>,
               ghost parent: map<Cell, Cell>, ghost q0: seq<Cell>, ghost head: int, u: Cell, ghost du: int, k: nat)
    returns (dist': seq<seq<int>>, q': seq<Cell>, ghost index': map<Cell, nat>, ghost parent': map<Cell, Cell>)
    requires m.Valid() && Relaxing(m, s, dist, q, index, parent, q0, head, u, du, k) && k < 4
    ensures Relaxing(m, s, dist', q', index', parent', q0, head, u, du, k + 1)
  {
    dist', q', index', parent' := dist, q, index, parent;
    var v := Neighbour(u, k);
    if v.0 < m.Width() && v.1 < m.Height() && m.At(v.0, v.1) != '9' && dist[v.1][v.0] == -1 {
      var d := dist[u.1][u.0] + 1;
      Discover(m, s, dist, q, index, parent, u, v, d);
      dist' := dist[v.1 := dist[v.1][v.0 := d]];
      q' := q + [v];
      index' := index[v := |q|];
      parent' := parent[v := u];
      ClosedExtends(m, s, dist, dist', q, index, parent, q', head);
      ClosedBelowExtends(m, dist, dist', u, k);
      ClosedBelowNext(m, dist', u, k);
    } else {
      if Open(m, v) {
        ReachedBounded(m, s, dist, q, index, parent, v);
      }
      ClosedBelowNext(m, dist, u, k);
    }
  }

  /** The body of `performBFS`'s outer loop: the cell at the head of the
      queue is taken off and its four neighbours are relaxed in order. */
  method Expand(m: Map, ghost s: Cell, dist: seq<seq<int>>, q: seq<Cell>, ghost index: map<Cell, nat>,
                ghost parent: map<Cell, Cell>, head: nat)
    returns (dist': seq<seq<int>>, q': seq<Cell>, ghost index': map<Cell, nat>, ghost parent': map<Cell, Cell>)
    requires m.Valid() && Frontier(m, s, dist, q, index, parent, head) && head < |q|
    ensures Frontier(m, s, dist', q', index', parent', head + 1) && |q'| >= |q|
  {
    var u := q[head];
    ghost var du := Get(dist, u);
    dist', q', index', parent' := dist, q, index, parent;
    RelaxingStart(m, s, dist, q, index, parent, head);
    for k := 0 to 4
      invariant Relaxing(m, s, dist', q', index', parent', q, head, u, du, k)
    {
      dist', q', index', parent' := Relax(m, s, dist', q', index', parent', q, head, u, du, k);
    }
    RelaxingDone(m, s, dist', q', index', parent', q, head, u, du);
  }

  /** `performBFS`: a height-by-width grid of -1, the start set to 0, then a
      queue of cells processed in order, each relaxing its four neighbours. */
  method PerformBFS(m: Map, startX: u16, startY: u16) returns (dist: seq<seq<int>>)
    requires m.Valid()
    requires m.InBounds(startX, startY)
    ensures DistanceField(m, (startX, startY), dist)
  {
    var s: Cell := (startX, startY);
    dist := StartGrid(m, s);
    var q: seq<Cell> := [s];
    var head := 0;
    ghost var index: map<Cell, nat> := map[s := 0];
    ghost var parent: map<Cell, Cell> := map[];
    StartSearched(m, s);
    while head < |q|
      invariant Frontier(m, s, dist, q, index, parent, head)
      decreases |AllCells(m)| - |q|, |q| - head
    {
      QueueFits(m, q, index);
      dist, q, index, parent := Expand(m, s, dist, q, index, parent, head);
      head := head + 1;
      QueueFits(m, q, index);
    }
    SearchedField(m, s, dist, q, index, parent);
  }

  // ---------------------------------------------------------------------
  // What the distance field means: shortest obstacle-free walks.

  /** Some walk from s of exactly n steps ends at c. */
  ghost predicate ReachableIn(m: Map, s: Cell, c: Cell, n: nat)
    requires m.Valid()
  {
    exists p :: IsPath(m, p, s) && |p| == n + 1 && p[|p| - 1] == c
  }

  /** Every walk from s ends at a reached cell, and its length is at least
      the cell's distance. */
  lemma {:induction false} PathBound(m: Map, s: Cell, dist: seq<seq<int>>, p: seq<Cell>)
    requires m.Valid() && DistanceField(m, s, dist) && IsPath(m, p, s)
    ensures InMap(m, p[|p| - 1])
    ensures 0 <= Get(dist, p[|p| - 1]) <= |p| - 1
  {
    if |p| > 1 {
      var p' := p[..|p| - 1];
      assert IsPath(m, p', s) by {
        forall i | 0 <= i < |p'| - 1
          ensures Step(m, p'[i], p'[i + 1])
        {
          assert p'[i] == p[i] && p'[i + 1] == p[i + 1];
        }
      }
      PathBound(m, s, dist, p');
      var u, v := p[|p| - 2], p[|p| - 1];
      assert u == p'[|p'| - 1];
      assert Step(m, u, v);
      assert Closed(m, dist, u);
      var k :| 0 <= k < 4 && v == Neighbour(u, k);
      assert Open(m, Neighbour(u, k));
    }
  }

  /** Every reached cell has a walk from s as long as its distance. */
  lemma {:induction false} PathTo(m: Map, s: Cell, dist: seq<seq<int>>, c: Cell) returns (p: seq<Cell>)
    requires m.Valid() && DistanceField(m, s, dist) && InMap(m, c) && Get(dist, c) >= 0
    ensures IsPath(m, p, s) && |p| == Get(dist, c) + 1 && p[|p| - 1] == c
    decreases Get(dist, c)
  {
    if Get(dist, c) == 0 {
      p := [s];
    } else {
      assert HasPredecessor(m, dist, c);
      var u :| InMap(m, u) && Get(dist, u) == Get(dist, c) - 1 && Step(m, u, c);
      var p' := PathTo(m, s, dist, u);
      p := p' + [c];
      forall i | 0 <= i < |p| - 1
        ensures Step(m, p[i], p[i + 1])
      {
        if i < |p'| - 1 {
          assert p[i] == p'[i] && p[i + 1] == p'[i + 1];
        } else {
          assert p[i] == u && p[i + 1] == c;
        }
      }
    }
  }

  /** A distance field holds, at each cell, the length of the shortest walk
      from s that avoids obstacles, and -1 exactly at the cells no such walk
      reaches. */
  lemma ShortestWalks(m: Map, s: Cell, dist: seq<seq<int>>, c: Cell)
    requires m.Valid() && DistanceField(m, s, dist) && InMap(m, c)
    ensures Get(dist, c) >= 0 ==> ReachableIn(m, s, c, Get(dist, c))
    ensures forall n: nat :: ReachableIn(m, s, c, n) ==> 0 <= Get(dist, c) <= n
    ensures Get(dist, c) == -1 <==> forall n: nat :: !ReachableIn(m, s, c, n)
  {
    if Get(dist, c) >= 0 {
      var p := PathTo(m, s, dist, c);
      assert ReachableIn(m, s, c, Get(dist, c));
    }
    forall n: nat | ReachableIn(m, s, c, n)
      ensures 0 <= Get(dist, c) <= n
    {
      var p :| IsPath(m, p, s) && |p| == n + 1 && p[|p| - 1] == c;
      PathBound(m, s, dist, p);
    }
  }

  /** Obstacle cells other than the start are never reached. */
  lemma ObstaclesUnreached(m: Map, s: Cell, dist: seq<seq<int>>, c: Cell)
    requires m.Valid() && DistanceField(m, s, dist) && InMap(m, c)
    ensures c != s && m.At(c.0, c.1) == '9' ==> Get(dist, c) == -1
  {
    if Get(dist, c) >= 1 {
      assert HasPredecessor(m, dist, c);
    }
  }

  /** Stepping left from column 0 (or up from row 0) wraps to 65535, which
      lies outside every map narrower (shorter) than 65536 cells, so the
      search never indexes outside the grid. */
  lemma EdgeStepsLeaveMap(m: Map, c: Cell)
    requires m.Valid() && InMap(m, c) && m.Width() < 0x1_0000 && m.Height() < 0x1_0000
    ensures c.0 == 0 ==> Neighbour(c, 0) == (0xFFFF, c.1) && !InMap(m, Neighbour(c, 0))
    ensures c.1 == 0 ==> Neighbour(c, 2) == (c.0, 0xFFFF) && !InMap(m, Neighbour(c, 2))
  {
  }
}
