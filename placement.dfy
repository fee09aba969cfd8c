/**
 * Where nodes sit on the grid: the bounds test for a footprint, the starting position of
 * a node being added, and the hit test that finds the node under the cursor.
 */
module Placement {
  import opened Geometry
  import opened Catalog
  import opened Engine

  /** `p` is a point of a `width` x `height` grid. */
  predicate OnGrid(width: int, height: int, p: Pos)
  {
    0 <= p.x < width && 0 <= p.y < height
  }

  /** `p` lies in the `w` x `h` rectangle whose top-left corner is (x, y). */
  predicate InRect(x: int, y: int, w: int, h: int, p: Pos)
  {
    x <= p.x < x + w && y <= p.y < y + h
  }

  /** The bounds test for a `w` x `h` footprint at (x, y), one edge after the other. */
  function CanMove(width: int, height: int, x: int, y: int, w: int, h: int): (r: bool)
    ensures r <==> 0 <= x && x + w - 1 < width && 0 <= y && y + h - 1 < height
  {
    if x < 0 then false
    else if x + w - 1 >= width then false
    else if y < 0 then false
    else if y + h - 1 >= height then false
    else true
  }

  /** A non-empty footprint passes the bounds test exactly when all its points are on the grid. */
  lemma CanMoveCovers(width: int, height: int, x: int, y: int, w: int, h: int)
    requires w >= 1 && h >= 1
    ensures CanMove(width, height, x, y, w, h) <==>
              forall p {:trigger InRect(x, y, w, h, p)} :: InRect(x, y, w, h, p) ==> OnGrid(width, height, p)
  {
    if forall p {:trigger InRect(x, y, w, h, p)} :: InRect(x, y, w, h, p) ==> OnGrid(width, height, p) {
      assert InRect(x, y, w, h, Pos(x, y));
      assert InRect(x, y, w, h, Pos(x + w - 1, y + h - 1));
    }
  }

  /** The node's own footprint passes the bounds test. */
  predicate Fits(width: int, height: int, n: Node)
  {
    CanMove(width, height, n.pos.x, n.pos.y, n.width, n.height)
  }

  /** The point `p` is covered by node `n`. */
  predicate Covers(n: Node, p: Pos)
  {
    InRect(n.pos.x, n.pos.y, n.width, n.height, p)
  }

  /** One coordinate of a new node: the cursor's, unless the node would reach the last column or row. */
  function Clamp(c: int, size: int, extent: int): int
  {
    if c + size > extent - 1 then extent - size else c
  }

  /**
   * From a cursor on the grid, the clamped position of a node no larger than the grid
   * passes the bounds test, and it is the cursor's own position whenever that one does.
   */
  lemma ClampAccepted(width: int, height: int, cursor: Pos, w: int, h: int)
    requires OnGrid(width, height, cursor)
    requires 1 <= w <= width && 1 <= h <= height
    ensures CanMove(width, height, Clamp(cursor.x, w, width), Clamp(cursor.y, h, height), w, h)
    ensures CanMove(width, height, cursor.x, cursor.y, w, h) ==>
              Clamp(cursor.x, w, width) == cursor.x && Clamp(cursor.y, h, height) == cursor.y
  {
  }

  /**
   * The hit test: the index in `ids` of the first node that covers `p`, or `None` when no
   * node does.
   */
  function FindNode(store: seq<Node>, ids: seq<nat>, p: Pos): (r: Option<nat>)
    requires IdsIn(store, ids)
    ensures r.Some? ==> r.value < |ids| && Covers(store[ids[r.value]], p)
    ensures r.Some? ==> forall t :: 0 <= t < r.value ==> !Covers(store[ids[t]], p)
    ensures r.None? <==> forall t :: 0 <= t < |ids| ==> !Covers(store[ids[t]], p)
    decreases |ids|
  {
    if ids == [] then None
    else if Covers(store[ids[0]], p) then Some(0)
    else
      match FindNode(store, ids[1..], p)
      case None => None
      case Some(k) => Some(k + 1)
  }
}
