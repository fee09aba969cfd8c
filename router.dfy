/**
 * The grid router: rebuilding every cell's neighbour list and the best-first search over
 * open and closed lists that produces a path between two cells.
 */
module Router {
  import opened Geometry

  predicate SameShape(chars: array2<Cell>, search: array2<Search>)
  {
    search.Length0 == chars.Length0 && search.Length1 == chars.Length1
  }

  /** `p` is a point of the search grid (a heap-independent guard for quantifiers). */
  predicate Inside(search: array2<Search>, p: Pos)
  {
    0 <= p.y < search.Length0 && 0 <= p.x < search.Length1
  }

  /**
   * The same test as `Inside`, kept as a separate name so that the search invariant is
   * applied only to the points a proof names, not to every point a lookup mentions.
   */
  predicate Point(search: array2<Search>, p: Pos)
  {
    Inside(search, p)
  }

  function At(search: array2<Search>, p: Pos): Search
    reads search
    requires Inside(search, p)
  {
    search[p.y, p.x]
  }

  /** Every cell's search fields are cleared and its neighbour list is the current one. */
  ghost predicate Prepared(chars: array2<Cell>, search: array2<Search>)
    reads chars, search
    requires SameShape(chars, search)
  {
    forall p {:trigger Inside(search, p)} :: Inside(search, p) ==> At(search, p) == Cleared.(neighbors := NeighborList(chars, p))
  }

  /** Every member of a neighbour list is a traversable cell of the grid. */
  lemma NeighborInGrid(chars: array2<Cell>, p: Pos, q: Pos)
    requires q in NeighborList(chars, p)
    ensures TraversableAt(chars, q) && TraversableAt(chars, p) && Adjacent(p, q)
  {
    NeighborListExact(chars, p, q);
  }

  /** The neighbours of the point at column `i`, row `j`, as the rebuild loop pushes them. */
  method PointNeighbors(chars: array2<Cell>, i: int, j: int) returns (nbs: seq<Pos>)
    requires InGrid(chars, Pos(i, j))
    ensures nbs == NeighborList(chars, Pos(i, j))
  {
    var height, width := chars.Length0, chars.Length1;
    nbs := [];
    if !Traversable(chars[j, i]) {
      return;
    }
    if i < width - 1 && Traversable(chars[j, i + 1]) {
      nbs := nbs + [Pos(i + 1, j)];
    }
    if i > 0 && Traversable(chars[j, i - 1]) {
      nbs := nbs + [Pos(i - 1, j)];
    }
    if j < height - 1 && Traversable(chars[j + 1, i]) {
      nbs := nbs + [Pos(i, j + 1)];
    }
    if j > 0 && Traversable(chars[j - 1, i]) {
      nbs := nbs + [Pos(i, j - 1)];
    }
  }

  /**
   * Clears each point's search fields and rebuilds its neighbour list (right, left, down,
   * up) from the cells that are currently traversable.
   */
  method GetPathNeighbors(chars: array2<Cell>, search: array2<Search>)
    requires SameShape(chars, search)
    modifies search
    ensures Prepared(chars, search)
  {
    var height, width := chars.Length0, chars.Length1;
    var j := 0;
    while j < height
      invariant 0 <= j <= height
      invariant forall p {:trigger Inside(search, p)} :: Inside(search, p) && p.y < j ==> At(search, p) == Cleared.(neighbors := NeighborList(chars, p))
    {
      var i := 0;
      while i < width
        invariant 0 <= i <= width
        invariant forall p {:trigger Inside(search, p)} :: Inside(search, p) && (p.y < j || (p.y == j && p.x < i)) ==>
                    At(search, p) == Cleared.(neighbors := NeighborList(chars, p))
      {
        var nbs := PointNeighbors(chars, i, j);
        search[j, i] := Cleared.(neighbors := nbs);
        assert At(search, Pos(i, j)) == Cleared.(neighbors := NeighborList(chars, Pos(i, j)));
        i := i + 1;
      }
      j := j + 1;
    }
  }

  predicate NoDup(s: seq<Pos>)
  {
    forall a, b :: 0 <= a < b < |s| ==> s[a] != s[b]
  }

  /** Neighbour lists are the current ones. */
  ghost predicate NeighborsCurrent(chars: array2<Cell>, search: array2<Search>)
    reads chars, search
    requires SameShape(chars, search)
  {
    forall p {:trigger Inside(search, p)} :: Inside(search, p) ==> At(search, p).neighbors == NeighborList(chars, p)
  }

  /**
   * What the search keeps about the point `p` whose search fields are `s`: its neighbour
   * list is the current one, it is a neighbour of its predecessor, an unclosed point's
   * predecessor is closed, g is never negative, and a point with a positive g that is not
   * closed is open.
   */
  ghost predicate CellOK(chars: array2<Cell>, s: Search, p: Pos, open: seq<Pos>, closed: seq<Pos>)
    reads chars
  {
    && s.neighbors == NeighborList(chars, p)
    && (s.prev.Some? ==> p in NeighborList(chars, s.prev.value))
    && (s.prev.Some? && p !in closed ==> s.prev.value in closed)
    && s.g >= 0
    && (s.g > 0 && p !in closed ==> p in open)
  }

  /** Every point of the grid satisfies `CellOK`. */
  ghost predicate Cells(chars: array2<Cell>, search: array2<Search>, open: seq<Pos>, closed: seq<Pos>)
    reads chars, search
    requires SameShape(chars, search)
  {
    forall p {:trigger Point(search, p)} :: Point(search, p) ==> CellOK(chars, At(search, p), p, open, closed)
  }

  lemma CellsNeighbors(chars: array2<Cell>, search: array2<Search>, open: seq<Pos>, closed: seq<Pos>)
    requires SameShape(chars, search) && Cells(chars, search, open, closed)
    ensures NeighborsCurrent(chars, search)
  {
    forall p | Inside(search, p) ensures At(search, p).neighbors == NeighborList(chars, p) {
      assert Point(search, p);
    }
  }

  /** Open and closed cells lie in the grid; the open list has no duplicates and no closed cell. */
  predicate Lists(chars: array2<Cell>, start: Pos, open: seq<Pos>, closed: seq<Pos>)
  {
    && InGrid(chars, start)
    && (forall t :: 0 <= t < |open| ==> InGrid(chars, open[t]) && open[t] !in closed)
    && (forall t :: 0 <= t < |closed| ==> InGrid(chars, closed[t]))
    && NoDup(open)
    && (if closed == [] then open == [start] else closed[0] == start)
  }

  /** A closed cell's predecessor was closed before it. */
  ghost predicate PrevEarlier(chars: array2<Cell>, search: array2<Search>, closed: seq<Pos>)
    reads chars, search
    requires SameShape(chars, search)
  {
    forall t :: 0 <= t < |closed| && Inside(search, closed[t]) && At(search, closed[t]).prev.Some? ==>
      At(search, closed[t]).prev.value in closed[..t]
  }

  /** Only `start` lacks a predecessor among the open and closed cells. */
  ghost predicate Rooted(chars: array2<Cell>, search: array2<Search>, start: Pos, open: seq<Pos>, closed: seq<Pos>)
    reads chars, search
    requires SameShape(chars, search) && Lists(chars, start, open, closed)
  {
    && At(search, start).prev == None
    && (forall t :: 0 <= t < |closed| && closed[t] != start ==> At(search, closed[t]).prev.Some?)
    && (forall t :: 0 <= t < |open| && open[t] != start ==> At(search, open[t]).prev.Some?)
  }

  /** The neighbours of the first `upto` closed cells have all been reached. */
  ghost predicate Expanded(chars: array2<Cell>, open: seq<Pos>, closed: seq<Pos>, upto: int)
    reads chars
    requires 0 <= upto <= |closed|
  {
    forall t, q :: 0 <= t < upto && q in NeighborList(chars, closed[t]) ==> q in closed || q in open
  }

  /** `ps` is a walk along neighbour links. */
  ghost predicate IsWalk(chars: array2<Cell>, ps: seq<Pos>)
    reads chars
  {
    forall t :: 0 <= t < |ps| - 1 ==> ps[t + 1] in NeighborList(chars, ps[t])
  }

  /** No walk along neighbour links leads from `start` to `goal`. */
  ghost predicate Unreachable(chars: array2<Cell>, start: Pos, goal: Pos)
    reads chars
  {
    forall ps {:trigger IsWalk(chars, ps)} :: |ps| > 0 && ps[0] == start && IsWalk(chars, ps) ==> ps[|ps| - 1] != goal
  }

  /**
   * A returned path: it starts at `goal`, ends at `start`, read backwards it is a walk
   * (each position is a neighbour of the next), and every position is traversable.
   */
  ghost predicate IsRoute(chars: array2<Cell>, ps: seq<Pos>, start: Pos, goal: Pos)
    reads chars
  {
    && |ps| > 0 && ps[0] == goal && ps[|ps| - 1] == start
    && (forall t :: 0 <= t < |ps| - 1 ==> ps[t] in NeighborList(chars, ps[t + 1]))
    && (forall t :: 0 <= t < |ps| ==> TraversableAt(chars, ps[t]))
  }

  /** The first open cell with the lowest f-score. */
  method LowestF(search: array2<Search>, open: seq<Pos>) returns (k: nat)
    requires |open| > 0
    requires forall t :: 0 <= t < |open| ==> Inside(search, open[t])
    ensures k < |open|
    ensures forall t :: 0 <= t < |open| ==> At(search, open[k]).f <= At(search, open[t]).f
    ensures forall t :: 0 <= t < k ==> At(search, open[k]).f < At(search, open[t]).f
  {
    k := 0;
    var t := 1;
    while t < |open|
      invariant k < t <= |open|
      invariant forall u :: 0 <= u < t ==> At(search, open[k]).f <= At(search, open[u]).f
      invariant forall u :: 0 <= u < k ==> At(search, open[k]).f < At(search, open[u]).f
    {
      if At(search, open[t]).f < At(search, open[k]).f {
        k := t;
      }
      t := t + 1;
    }
  }

  /** A walk that starts inside a neighbour-closed set of cells never leaves it. */
  lemma {:induction false} WalkStaysInside(chars: array2<Cell>, closed: seq<Pos>, ps: seq<Pos>)
    requires forall t, q :: 0 <= t < |closed| && q in NeighborList(chars, closed[t]) ==> q in closed
    requires |ps| > 0 && ps[0] in closed && IsWalk(chars, ps)
    ensures forall t :: 0 <= t < |ps| ==> ps[t] in closed
  {
    if |ps| > 1 {
      var init := ps[..|ps| - 1];
      assert IsWalk(chars, init) by {
        forall t | 0 <= t < |init| - 1 ensures init[t + 1] in NeighborList(chars, init[t]) {
          assert init[t + 1] == ps[t + 1] && init[t] == ps[t];
        }
      }
      WalkStaysInside(chars, closed, init);
      assert ps[|ps| - 2] == init[|init| - 1];
      var t :| 0 <= t < |closed| && closed[t] == ps[|ps| - 2];
      assert ps[|ps| - 1] in NeighborList(chars, closed[t]);
      forall u | 0 <= u < |ps| ensures ps[u] in closed {
        if u < |ps| - 1 {
          assert ps[u] == init[u];
        }
      }
    }
  }

  /** Follows predecessor links from the last closed cell back to `start`. */
  method TracePath(chars: array2<Cell>, search: array2<Search>, start: Pos, open: seq<Pos>, closed: seq<Pos>)
    returns (ps: seq<Pos>)
    requires SameShape(chars, search) && Lists(chars, start, open, closed)
    requires Cells(chars, search, open, closed) && PrevEarlier(chars, search, closed) && Rooted(chars, search, start, open, closed)
    requires |closed| > 0 && TraversableAt(chars, closed[|closed| - 1])
    ensures IsRoute(chars, ps, start, closed[|closed| - 1])
  {
    ghost var r := |closed| - 1;
    var goal := closed[|closed| - 1];
    ps := [goal];
    var p := At(search, goal).prev;
    while p.Some?
      invariant 0 <= r < |closed| && |ps| > 0 && ps[|ps| - 1] == closed[r] && p == At(search, closed[r]).prev
      invariant ps[0] == goal
      invariant forall t :: 0 <= t < |ps| - 1 ==> ps[t] in NeighborList(chars, ps[t + 1])
      invariant forall t :: 0 <= t < |ps| ==> TraversableAt(chars, ps[t])
      decreases r
    {
      var q := p.value;
      ghost var r' := TraceStep(chars, search, start, open, closed, ps, r);
      ps := ps + [q];
      p := At(search, q).prev;
      r := r';
    }
  }

  /**
   * One step back along the predecessor links: the predecessor of the `r`-th closed cell was
   * closed before it, and appending it keeps the traced positions a backward walk of
   * traversable cells.
   */
  lemma TraceStep(chars: array2<Cell>, search: array2<Search>, start: Pos, open: seq<Pos>, closed: seq<Pos>,
                  ps: seq<Pos>, r: nat) returns (r': nat)
    requires SameShape(chars, search) && Lists(chars, start, open, closed)
    requires Cells(chars, search, open, closed) && PrevEarlier(chars, search, closed)
    requires r < |closed| && |ps| > 0 && ps[|ps| - 1] == closed[r] && At(search, closed[r]).prev.Some?
    requires forall t :: 0 <= t < |ps| - 1 ==> ps[t] in NeighborList(chars, ps[t + 1])
    requires forall t :: 0 <= t < |ps| ==> TraversableAt(chars, ps[t])
    ensures r' < r && closed[r'] == At(search, closed[r]).prev.value
    ensures forall t :: 0 <= t < |ps| ==> (ps + [closed[r']])[t] in NeighborList(chars, (ps + [closed[r']])[t + 1])
    ensures forall t :: 0 <= t < |ps| + 1 ==> TraversableAt(chars, (ps + [closed[r']])[t])
  {
    var q := At(search, closed[r]).prev.value;
    assert q in closed[..r];
    r' :| 0 <= r' < r && closed[r'] == q;
    assert Point(search, closed[r]);
    NeighborInGrid(chars, q, closed[r]);
    var ps' := ps + [q];
    assert forall t :: 0 <= t < |ps| ==> ps'[t] == ps[t];
  }

  /** Everything the outer search loop keeps about its lists and the search fields. */
  ghost predicate SearchState(chars: array2<Cell>, search: array2<Search>, start: Pos, open: seq<Pos>, closed: seq<Pos>)
    reads chars, search
    requires SameShape(chars, search)
  {
    && Cells(chars, search, open, closed)
    && Lists(chars, start, open, closed)
    && PrevEarlier(chars, search, closed)
    && Rooted(chars, search, start, open, closed)
  }

  /**
   * The search fields of a neighbour after it is scored from `from` with g-score `g` and
   * h-score `h`: when `g` is greater than its stored g-score (the comparison as written)
   * it takes `from` as predecessor, f from its old g and h, and the new g and h; otherwise
   * it keeps its fields.
   */
  function Scored(was: Search, from: Pos, g: int, h: int): Search
  {
    if g > was.g then was.(prev := Some(from), f := was.g + was.h, g := g, h := h) else was
  }

  /**
   * Scores one neighbour `nb` of the just-closed cell `curr`. When its new g-score is
   * greater than the stored one (the comparison as written), it takes `curr` as
   * predecessor, f from its old g and h, the new g and h, and joins the open list when it
   * is not already there. In every case it ends up in the open list.
   */
  method RelaxCell(chars: array2<Cell>, search: array2<Search>, start: Pos, goal: Pos, curr: Pos, nb: Pos,
                   open: seq<Pos>, closed: seq<Pos>) returns (open': seq<Pos>)
    requires SameShape(chars, search)
    requires SearchState(chars, search, start, open, closed)
    requires curr in closed && nb in NeighborList(chars, curr) && nb !in closed
    modifies search
    ensures SearchState(chars, search, start, open', closed)
    ensures forall q :: q in open ==> q in open'
    ensures nb in open'
    ensures Inside(search, curr) && Inside(search, nb)
    ensures At(search, nb) == Scored(old(At(search, nb)), curr, old(At(search, curr)).g + 1, Abs(goal.x - nb.x) + Abs(goal.y - nb.y))
    ensures forall p :: Inside(search, p) && p != nb ==> At(search, p) == old(At(search, p))
  {
    NeighborInGrid(chars, curr, nb);
    assert Point(search, nb) && Point(search, curr);
    var dist := Abs(curr.x - nb.x) + Abs(curr.y - nb.y);
    assert dist == 1;
    var g := At(search, curr).g + dist;
    var h := Abs(goal.x - nb.x) + Abs(goal.y - nb.y);
    var f := At(search, nb).g + At(search, nb).h;
    open' := open;
    if g > At(search, nb).g {
      open' := Relink(chars, search, start, curr, nb, open, closed, At(search, nb).(prev := Some(curr), f := f, g := g, h := h));
      assert At(search, nb) == Scored(old(At(search, nb)), curr, g, h);
    } else {
      StaysOpen(chars, search, start, open, closed, curr, nb);
    }
  }

  /** A neighbour of a closed cell whose g-score is above the closed cell's is open. */
  lemma StaysOpen(chars: array2<Cell>, search: array2<Search>, start: Pos, open: seq<Pos>, closed: seq<Pos>, curr: Pos, nb: Pos)
    requires SameShape(chars, search) && SearchState(chars, search, start, open, closed)
    requires curr in closed && nb !in closed && Inside(search, curr) && Inside(search, nb)
    requires At(search, curr).g < At(search, nb).g
    ensures nb in open
  {
    assert Point(search, nb) && Point(search, curr);
  }

  /**
   * Stores the improved entry `e` of `nb`, whose predecessor is the closed cell `curr`,
   * and puts `nb` in the open list when it is not already there.
   */
  method Relink(chars: array2<Cell>, search: array2<Search>, start: Pos, curr: Pos, nb: Pos,
                open: seq<Pos>, closed: seq<Pos>, e: Search) returns (open': seq<Pos>)
    requires SameShape(chars, search)
    requires SearchState(chars, search, start, open, closed)
    requires curr in closed && nb in NeighborList(chars, curr) && nb !in closed && InGrid(chars, nb)
    requires e.prev == Some(curr) && e.neighbors == NeighborList(chars, nb) && e.g > 0
    modifies search
    ensures SearchState(chars, search, start, open', closed)
    ensures open' == if nb in open then open else open + [nb]
    ensures Inside(search, nb) && At(search, nb) == e
    ensures forall p :: Inside(search, p) && p != nb ==> At(search, p) == old(At(search, p))
  {
    search[nb.y, nb.x] := e;
    open' := if nb in open then open else open + [nb];
    OpenGrows(chars, start, nb, open, closed, open');
    forall p | Point(search, p) ensures CellOK(chars, At(search, p), p, open', closed) {
      if p != nb {
        assert At(search, p) == old(At(search, p));
        CellGrows(chars, At(search, p), p, open, closed, open');
      }
    }
    assert Cells(chars, search, open', closed);
    forall t | 0 <= t < |closed| ensures At(search, closed[t]) == old(At(search, closed[t])) {
      assert closed[t] != nb;
    }
    assert PrevEarlier(chars, search, closed);
    assert start == closed[0] && start != nb;
    assert At(search, start).prev == None;
    assert forall t :: 0 <= t < |closed| && closed[t] != start ==> At(search, closed[t]).prev.Some?;
    forall t | 0 <= t < |open'| && open'[t] != start ensures At(search, open'[t]).prev.Some? {
      if open'[t] != nb {
        assert open'[t] == open[t] && At(search, open[t]) == old(At(search, open[t]));
      }
    }
  }

  /** Appending a fresh, unclosed grid cell keeps the lists well formed. */
  lemma OpenGrows(chars: array2<Cell>, start: Pos, nb: Pos, open: seq<Pos>, closed: seq<Pos>, open': seq<Pos>)
    requires Lists(chars, start, open, closed) && closed != []
    requires InGrid(chars, nb) && nb !in closed
    requires open' == open || (nb !in open && open' == open + [nb])
    ensures Lists(chars, start, open', closed)
    ensures forall q :: q in open ==> q in open'
  {
  }

  /** `CellOK` only gets easier as the open list grows. */
  lemma CellGrows(chars: array2<Cell>, s: Search, p: Pos, open: seq<Pos>, closed: seq<Pos>, open': seq<Pos>)
    requires CellOK(chars, s, p, open, closed)
    requires forall q :: q in open ==> q in open'
    ensures CellOK(chars, s, p, open', closed)
  {
  }

  /** Scores every neighbour of the just-closed cell `curr` that is not closed. */
  method Relax(chars: array2<Cell>, search: array2<Search>, start: Pos, goal: Pos, curr: Pos,
               open: seq<Pos>, closed: seq<Pos>) returns (open': seq<Pos>)
    requires SameShape(chars, search)
    requires SearchState(chars, search, start, open, closed)
    requires |closed| > 0 && curr == closed[|closed| - 1]
    requires Expanded(chars, open, closed, |closed| - 1)
    modifies search
    ensures SearchState(chars, search, start, open', closed)
    ensures Expanded(chars, open', closed, |closed|)
  {
    assert Point(search, curr);
    var nbs := At(search, curr).neighbors;
    open' := open;
    var t := 0;
    while t < |nbs|
      invariant 0 <= t <= |nbs|
      invariant nbs == NeighborList(chars, curr)
      invariant SearchState(chars, search, start, open', closed)
      invariant forall q :: q in open ==> q in open'
      invariant forall u :: 0 <= u < t ==> nbs[u] in closed || nbs[u] in open'
    {
      var nb := nbs[t];
      ghost var was := open';
      if nb !in closed {
        open' := RelaxCell(chars, search, start, goal, curr, nb, open', closed);
      }
      ReachedOneMore(nbs, t, closed, open, was, open');
      t := t + 1;
    }
    ExpandLast(chars, open, open', closed);
  }

  /** The reached prefix of `nbs` grows by one as the open list grows. */
  lemma ReachedOneMore(nbs: seq<Pos>, t: nat, closed: seq<Pos>, open: seq<Pos>, was: seq<Pos>, open': seq<Pos>)
    requires t < |nbs|
    requires forall u :: 0 <= u < t ==> nbs[u] in closed || nbs[u] in was
    requires forall q :: q in open ==> q in was
    requires forall q :: q in was ==> q in open'
    requires nbs[t] in closed || nbs[t] in open'
    ensures forall q :: q in open ==> q in open'
    ensures forall u :: 0 <= u < t + 1 ==> nbs[u] in closed || nbs[u] in open'
  {
  }

  /** Once every neighbour of the last closed cell is reached, all closed cells are expanded. */
  lemma ExpandLast(chars: array2<Cell>, open: seq<Pos>, open': seq<Pos>, closed: seq<Pos>)
    requires |closed| > 0 && Expanded(chars, open, closed, |closed| - 1)
    requires forall q :: q in open ==> q in open'
    requires forall q :: q in NeighborList(chars, closed[|closed| - 1]) ==> q in closed || q in open'
    ensures Expanded(chars, open', closed, |closed|)
  {
  }

  /** The state the search starts from: `start` alone is open, every point is cleared. */
  lemma InitialState(chars: array2<Cell>, search: array2<Search>, start: Pos)
    requires SameShape(chars, search) && InGrid(chars, start) && Prepared(chars, search)
    ensures SearchState(chars, search, start, [start], [])
    ensures Expanded(chars, [start], [], 0)
  {
    assert Point(search, start);
  }

  /**
   * When the open list is exhausted, the closed cells contain all their neighbours, so a
   * walk from `start` never leaves them and never reaches the unclosed `goal`.
   */
  lemma Exhausted(chars: array2<Cell>, start: Pos, goal: Pos, closed: seq<Pos>)
    requires Lists(chars, start, [], closed) && Expanded(chars, [], closed, |closed|)
    requires goal !in closed
    ensures Unreachable(chars, start, goal)
  {
    forall ps | |ps| > 0 && ps[0] == start && IsWalk(chars, ps)
      ensures ps[|ps| - 1] != goal
    {
      WalkStaysInside(chars, closed, ps);
    }
  }

  /**
   * The search from `start` to `goal`. It returns a path from `goal` back to `start`, or
   * `None` once the open list is exhausted, which happens only when no walk from `start`
   * reaches `goal`. Only the f, g, h and predecessor fields of the grid points change.
   */
  method CreatePath(chars: array2<Cell>, search: array2<Search>, start: Pos, goal: Pos)
    returns (path: Option<seq<Pos>>)
    requires SameShape(chars, search)
    requires InGrid(chars, start) && TraversableAt(chars, goal)
    requires Prepared(chars, search)
    modifies search
    ensures path.Some? ==> IsRoute(chars, path.value, start, goal)
    ensures path.None? ==> Unreachable(chars, start, goal)
    ensures NeighborsCurrent(chars, search)
  {
    var open := [start];
    var closed: seq<Pos> := [];
    InitialState(chars, search, start);
    ghost var cells := set y: int, x: int | 0 <= y < chars.Length0 && 0 <= x < chars.Length1 :: Pos(x, y);
    ghost var seen: set<Pos> := {};
    while |open| > 0
      invariant SearchState(chars, search, start, open, closed)
      invariant Expanded(chars, open, closed, |closed|)
      invariant goal !in closed
      invariant forall p :: p in seen <==> p in closed
      invariant seen <= cells
      decreases cells - seen
    {
      var k := LowestF(search, open);
      var curr := open[k];
      ghost var before, was := closed, open;
      // `indexOf` finds `curr` at `k`, the open list having no duplicates
      open := open[..k] + open[k + 1..];
      closed := closed + [curr];
      assert curr in cells && curr !in seen;
      seen := seen + {curr};
      StepPreserves(chars, search, start, was, before, k);
      if curr == goal {
        var ps := TracePath(chars, search, start, open, closed);
        CellsNeighbors(chars, search, open, closed);
        path := Some(ps);
        return;
      }
      open := Relax(chars, search, start, goal, curr, open, closed);
    }
    path := None;
    CellsNeighbors(chars, search, open, closed);
    Exhausted(chars, start, goal, closed);
  }

  /** Moving the chosen cell from the open to the closed list keeps the search state. */
  lemma StepPreserves(chars: array2<Cell>, search: array2<Search>, start: Pos, open: seq<Pos>, closed: seq<Pos>, k: nat)
    requires SameShape(chars, search)
    requires SearchState(chars, search, start, open, closed)
    requires Expanded(chars, open, closed, |closed|)
    requires k < |open|
    ensures SearchState(chars, search, start, open[..k] + open[k + 1..], closed + [open[k]])
    ensures Expanded(chars, open[..k] + open[k + 1..], closed + [open[k]], |closed|)
  {
    var open', closed' := open[..k] + open[k + 1..], closed + [open[k]];
    StepLists(chars, search, start, open, closed, k);
    StepCells(chars, search, start, open, closed, k);
    StepPrevEarlier(chars, search, start, open, closed, k);
    StepRooted(chars, search, start, open, closed, k);
    StepExpanded(chars, search, start, open, closed, k);
  }

  /** Removing the element at `k` from a duplicate-free list leaves exactly the others. */
  lemma RemoveAt(open: seq<Pos>, k: nat)
    requires k < |open| && NoDup(open)
    ensures NoDup(open[..k] + open[k + 1..])
    ensures forall q :: q in open[..k] + open[k + 1..] <==> q in open && q != open[k]
  {
    var open' := open[..k] + open[k + 1..];
    assert forall t :: 0 <= t < |open'| ==> open'[t] == if t < k then open[t] else open[t + 1];
    forall q | q in open && q != open[k] ensures q in open' {
      var t :| 0 <= t < |open| && open[t] == q;
      if t < k { assert open'[t] == q; } else { assert open'[t - 1] == q; }
    }
  }

  lemma StepLists(chars: array2<Cell>, search: array2<Search>, start: Pos, open: seq<Pos>, closed: seq<Pos>, k: nat)
    requires SameShape(chars, search)
    requires SearchState(chars, search, start, open, closed)
    requires k < |open|
    ensures Lists(chars, start, open[..k] + open[k + 1..], closed + [open[k]])
  {
    RemoveAt(open, k);
    var open' := open[..k] + open[k + 1..];
    assert forall t :: 0 <= t < |open'| ==> open'[t] in open;
  }

  /** One point's `CellOK` survives moving `open[k]` to the closed list. */
  lemma StepCell(chars: array2<Cell>, s: Search, p: Pos, open: seq<Pos>, closed: seq<Pos>, k: nat)
    requires k < |open| && NoDup(open)
    requires CellOK(chars, s, p, open, closed)
    ensures CellOK(chars, s, p, open[..k] + open[k + 1..], closed + [open[k]])
  {
    RemoveAt(open, k);
  }

  lemma StepCells(chars: array2<Cell>, search: array2<Search>, start: Pos, open: seq<Pos>, closed: seq<Pos>, k: nat)
    requires SameShape(chars, search)
    requires SearchState(chars, search, start, open, closed)
    requires k < |open|
    ensures Cells(chars, search, open[..k] + open[k + 1..], closed + [open[k]])
  {
    forall p | Point(search, p)
      ensures CellOK(chars, At(search, p), p, open[..k] + open[k + 1..], closed + [open[k]])
    {
      StepCell(chars, At(search, p), p, open, closed, k);
    }
  }

  lemma StepPrevEarlier(chars: array2<Cell>, search: array2<Search>, start: Pos, open: seq<Pos>, closed: seq<Pos>, k: nat)
    requires SameShape(chars, search)
    requires SearchState(chars, search, start, open, closed)
    requires k < |open|
    ensures PrevEarlier(chars, search, closed + [open[k]])
  {
    var closed' := closed + [open[k]];
    forall t | 0 <= t < |closed'| && Inside(search, closed'[t]) && At(search, closed'[t]).prev.Some?
      ensures At(search, closed'[t]).prev.value in closed'[..t]
    {
      if t < |closed| {
        assert closed'[..t] == closed[..t];
      } else {
        assert closed'[..t] == closed;
        assert Point(search, closed'[t]);
      }
    }
  }

  lemma StepRooted(chars: array2<Cell>, search: array2<Search>, start: Pos, open: seq<Pos>, closed: seq<Pos>, k: nat)
    requires SameShape(chars, search)
    requires SearchState(chars, search, start, open, closed)
    requires k < |open|
    requires Lists(chars, start, open[..k] + open[k + 1..], closed + [open[k]])
    ensures Rooted(chars, search, start, open[..k] + open[k + 1..], closed + [open[k]])
  {
    RemoveAt(open, k);
    var open' := open[..k] + open[k + 1..];
    assert forall t :: 0 <= t < |open'| ==> open'[t] in open;
  }

  lemma StepExpanded(chars: array2<Cell>, search: array2<Search>, start: Pos, open: seq<Pos>, closed: seq<Pos>, k: nat)
    requires SameShape(chars, search)
    requires SearchState(chars, search, start, open, closed)
    requires Expanded(chars, open, closed, |closed|)
    requires k < |open|
    ensures Expanded(chars, open[..k] + open[k + 1..], closed + [open[k]], |closed|)
  {
    RemoveAt(open, k);
  }

  /** The search, after which a failed search rebuilds every neighbour list. */
  method SearchOrReset(chars: array2<Cell>, search: array2<Search>, start: Pos, goal: Pos)
    returns (path: Option<seq<Pos>>)
    requires SameShape(chars, search)
    requires InGrid(chars, start) && TraversableAt(chars, goal)
    requires Prepared(chars, search)
    modifies search
    ensures path.Some? ==> IsRoute(chars, path.value, start, goal)
    ensures path.None? ==>
              && Prepared(chars, search)
              && Unreachable(chars, start, goal)
  {
    path := CreatePath(chars, search, start, goal);
    if path.None? {
      GetPathNeighbors(chars, search);
    }
  }
}
