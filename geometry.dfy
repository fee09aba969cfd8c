/** Grid positions, cell characters and the per-cell search record of the router. */
module Geometry {

  datatype Option<T> = None | Some(value: T)

  /** A grid coordinate: `x` is the column, `y` the row (the grid is indexed `[y, x]`). */
  datatype Pos = Pos(x: int, y: int)

  /**
   * The character held by a grid cell. `Empty` is the empty-cell marker, `Wall` the node
   * border `=`, `Body` the node interior `-`, `In`/`Out` the port markers `i`/`o`, and
   * `Glyph(c)` any other single character (the first letter of a node's name).
   */
  datatype Cell = Empty | Wall | Body | In | Out | Glyph(c: char)

  /**
   * The cell a one-character string denotes. Characters are compared by value in the
   * program, so a name starting with `i` or `o` produces a port marker.
   */
  function CharCell(c: char): (r: Cell)
    ensures r == In <==> c == 'i'
    ensures r == Out <==> c == 'o'
    ensures r == Wall <==> c == '='
    ensures r == Body <==> c == '-'
    ensures r != Empty
    ensures r.Glyph? ==> r.c == c
  {
    if c == 'i' then In
    else if c == 'o' then Out
    else if c == '=' then Wall
    else if c == '-' then Body
    else Glyph(c)
  }

  /** The router may pass through empty cells and port markers only. */
  predicate Traversable(c: Cell)
  {
    c == Empty || c == In || c == Out
  }

  function Abs(a: int): nat
  {
    if a < 0 then -a else a
  }

  predicate Adjacent(p: Pos, q: Pos)
  {
    Abs(p.x - q.x) + Abs(p.y - q.y) == 1
  }

  /** The transient search fields of a grid point: `neighbors`, `f`, `g`, `h`, `prevNode`. */
  datatype Search = Search(neighbors: seq<Pos>, f: int, g: int, h: int, prev: Option<Pos>)

  /** The state `Point.Clear` leaves the search fields in. */
  const Cleared: Search := Search([], 0, 0, 0, None)

  predicate InGrid(chars: array2<Cell>, p: Pos)
  {
    0 <= p.y < chars.Length0 && 0 <= p.x < chars.Length1
  }

  predicate TraversableAt(chars: array2<Cell>, p: Pos)
    reads chars
  {
    InGrid(chars, p) && Traversable(chars[p.y, p.x])
  }

  /**
   * The neighbour list the router builds for cell `p`: right, left, down, up, each kept
   * when it is inside the grid and traversable; a cell that is not traversable has none.
   */
  function NeighborList(chars: array2<Cell>, p: Pos): seq<Pos>
    reads chars
  {
    if !TraversableAt(chars, p) then []
    else
      var right := Pos(p.x + 1, p.y);
      var left := Pos(p.x - 1, p.y);
      var down := Pos(p.x, p.y + 1);
      var up := Pos(p.x, p.y - 1);
      (if TraversableAt(chars, right) then [right] else [])
      + (if TraversableAt(chars, left) then [left] else [])
      + (if TraversableAt(chars, down) then [down] else [])
      + (if TraversableAt(chars, up) then [up] else [])
  }

  /** `q` is a neighbour of `p` exactly when both are traversable cells of the grid and 4-adjacent. */
  lemma NeighborListExact(chars: array2<Cell>, p: Pos, q: Pos)
    ensures q in NeighborList(chars, p) <==>
              TraversableAt(chars, p) && TraversableAt(chars, q) && Adjacent(p, q)
  {
    if TraversableAt(chars, p) && TraversableAt(chars, q) && Adjacent(p, q) {
      assert q == Pos(p.x + 1, p.y) || q == Pos(p.x - 1, p.y)
          || q == Pos(p.x, p.y + 1) || q == Pos(p.x, p.y - 1);
    }
  }

  /** The neighbour relation is symmetric. */
  lemma NeighborSymmetric(chars: array2<Cell>, p: Pos, q: Pos)
    requires q in NeighborList(chars, p)
    ensures p in NeighborList(chars, q)
  {
    NeighborListExact(chars, p, q);
    NeighborListExact(chars, q, p);
  }
}
