/**
 * The program's global state as one object: the grid, the node list, the worklist, the
 * committed paths and the connection draft, with the commands that change them.
 */
module Simulation {
  import opened Geometry
  import opened Catalog
  import opened Engine
  import opened Placement
  import opened Router
  import opened Wiring
  import Lists
  import opened Session

  /** A cursor or placement move by one cell. */
  datatype Step = Left | Right | Up | Down

  function DX(s: Step): int
  {
    match s
    case Left => -1
    case Right => 1
    case _ => 0
  }

  function DY(s: Step): int
  {
    match s
    case Up => -1
    case Down => 1
    case _ => 0
  }

  class Sim {
    const width: nat
    const height: nat
    /** The character of every grid point, indexed `[y, x]`. */
    const chars: array2<Cell>
    /** The search fields of every grid point. */
    const search: array2<Search>
    var state: State
    /** Every node object ever created; the node list and the connections index it. */
    var store: seq<Node>
    /** The node list, as indices into `store`. */
    var nodes: seq<nat>
    /** The worklist of the evaluation engine. */
    var nextSet: seq<nat>
    /** Every path object ever created; path references index it. */
    var pathStore: seq<PathObj>
    /** The committed paths. */
    var paths: seq<PathRef>
    var selectedPort: Option<PortRef>
    var currPath: PathRef
    var pathfinding: bool
    var cursor: Pos

    /**
     * The grid's shape, the invariant of the lists and the cursor, and the placement
     * invariant: every placed node shows on the grid and no two placed nodes overlap.
     */
    ghost predicate Valid()
      reads this, chars
    {
      && Grid()
      && Inv(width, height, store, pathStore, nodes, nextSet, paths, currPath, selectedPort, cursor, state)
      && Drawn(chars, store, nodes, Placed(nodes, state))
    }

    /** The grid is at least 5 x 5, and the character and search arrays have its shape. */
    ghost predicate Grid()
      reads this
    {
      && 5 <= width && 5 <= height
      && chars.Length0 == height && chars.Length1 == width
      && SameShape(chars, search)
    }

    /** A fresh session: every point empty and cleared, no nodes, no paths, simulating. */
    constructor (w: nat, h: nat)
      requires 5 <= w && 5 <= h
      ensures Valid()
      ensures width == w && height == h && fresh(chars) && fresh(search)
      ensures forall y, x :: 0 <= y < h && 0 <= x < w ==> chars[y, x] == Empty && search[y, x] == Cleared
      ensures state == Simulate && store == [] && nodes == [] && nextSet == []
      ensures pathStore == [] && paths == [] && selectedPort == None && currPath == NullPath
      ensures !pathfinding && cursor == Pos(0, 0)
    {
      width, height := w, h;
      chars := new Cell[h, w]((_, _) => Empty);
      search := new Search[h, w]((_, _) => Cleared);
      state := Simulate;
      store, nodes, nextSet := [], [], [];
      pathStore, paths := [], [];
      selectedPort, currPath, pathfinding := None, NullPath, false;
      cursor := Pos(0, 0);
    }

    /**
     * Enters mode `s`, which also drops the selected port and the draft path. In the place
     * mode only placing and cancelling change the mode, and they set it themselves.
     */
    method SetState(s: State)
      requires Valid() && state != Place && (s == Place ==> |nodes| > 0)
      modifies this
      ensures Valid()
      ensures state == s && selectedPort == None && currPath == NullPath
      ensures store == old(store) && nodes == old(nodes) && nextSet == old(nextSet)
      ensures pathStore == old(pathStore) && paths == old(paths)
      ensures pathfinding == old(pathfinding) && cursor == old(cursor)
    {
      state := s;
      selectedPort := None;
      currPath := NullPath;
    }

    /**
     * Adds a fresh node of kind `k` and enters the place mode. Its position is the
     * cursor's, pulled back from the right and bottom edges so the footprint fits.
     */
    method AddNode(k: Kind) returns (o: Outcome)
      requires Valid()
      modifies this
      ensures Valid()
      ensures o == Done || o == Failed(Busy)
      ensures old(state) == Place <==> o == Failed(Busy)
      ensures o.Failed? ==> unchanged(this)
      ensures o.Done? ==>
                && |store| == |old(store)| + 1 && store[..|old(store)|] == old(store)
                && nodes == old(nodes) + [|old(store)|]
                && Blank(store[|old(store)|], k)
                && store[|old(store)|].pos == Pos(Clamp(old(cursor).x, Width(k), width), Clamp(old(cursor).y, Height(k), height))
                && state == Place && selectedPort == None && currPath == NullPath
                && nextSet == old(nextSet) && pathStore == old(pathStore) && paths == old(paths)
                && pathfinding == old(pathfinding) && cursor == old(cursor)
    {
      if state == Place {
        return Failed(Busy);
      }
      var n := CreateNode(k);
      var x := if cursor.x + n.width > width - 1 then width - n.width else cursor.x;
      var y := if cursor.y + n.height > height - 1 then height - n.height else cursor.y;
      ClampAccepted(width, height, cursor, n.width, n.height);
      n := n.(pos := Pos(x, y));
      Adopt(n);
      o := Done;
    }

    /** Stores `n` as a new node, appends it to the node list and enters the place mode. */
    method Adopt(n: Node)
      requires Valid() && state != Place && WellFormed(n) && Fits(width, height, n)
      requires forall q :: 0 <= q < |n.ports| ==> n.ports[q].connections == [] && n.ports[q].paths == []
      modifies this
      ensures Valid()
      ensures (store, nodes) == (old(store) + [n], old(nodes) + [|old(store)|])
      ensures (state, selectedPort, currPath) == (Place, None, NullPath)
      ensures (nextSet, pathStore, paths, pathfinding, cursor) == old((nextSet, pathStore, paths, pathfinding, cursor))
    {
      AddedInv(width, height, store, pathStore, nodes, nextSet, paths, currPath, selectedPort, cursor, state, chars, n);
      store, nodes := store + [n], nodes + [|store|];
      // SetState(Place), whose precondition the unplaced node at the end of the list does not meet
      state, selectedPort, currPath := Place, None, NullPath;
    }

    /**
     * A move of the node being placed: it moves by one cell when the moved footprint
     * passes the bounds test and stays put otherwise; the cursor follows the node.
     */
    method MovePlaced(s: Step)
      requires Valid() && state == Place
      modifies this
      ensures Valid()
      ensures var id := old(nodes)[|old(nodes)| - 1];
              var n := old(store)[id];
              var ok := CanMove(width, height, n.pos.x + DX(s), n.pos.y + DY(s), n.width, n.height);
              var p := if ok then Pos(n.pos.x + DX(s), n.pos.y + DY(s)) else n.pos;
              && store == old(store)[id := n.(pos := p)]
              && cursor == p
      ensures state == old(state) && nodes == old(nodes) && nextSet == old(nextSet)
      ensures pathStore == old(pathStore) && paths == old(paths)
      ensures selectedPort == old(selectedPort) && currPath == old(currPath) && pathfinding == old(pathfinding)
    {
      var id := nodes[|nodes| - 1];
      var n := store[id];
      if CanMove(width, height, n.pos.x + DX(s), n.pos.y + DY(s), n.width, n.height) {
        n := n.(pos := Pos(n.pos.x + DX(s), n.pos.y + DY(s)));
      }
      Relocate(id, n);
    }

    /** Puts the node being placed, `id`, at `n`'s position, and the cursor with it. */
    method Relocate(id: nat, n: Node)
      requires Valid() && state == Place && id == nodes[|nodes| - 1]
      requires n == store[id].(pos := n.pos) && Fits(width, height, n)
      modifies this
      ensures Valid() && store == old(store)[id := n] && cursor == n.pos
      ensures (state, nodes, nextSet, pathStore, paths, selectedPort, currPath, pathfinding)
           == old((state, nodes, nextSet, pathStore, paths, selectedPort, currPath, pathfinding))
    {
      ReplaceNodeOK(store, pathStore, id, n);
      LastNotPlaced(nodes);
      DrawnKept(chars, store, store[id := n], nodes, |nodes| - 1);
      store, cursor := store[id := n], n.pos;
    }

    /** Abandons the node being placed: it leaves the node list and the mode is simulation. */
    method CancelPlace()
      requires Valid() && state == Place
      modifies this
      ensures Valid()
      ensures nodes == old(nodes)[..|old(nodes)| - 1]
      ensures state == Simulate && selectedPort == None && currPath == NullPath
      ensures store == old(store) && nextSet == old(nextSet) && pathStore == old(pathStore) && paths == old(paths)
      ensures pathfinding == old(pathfinding) && cursor == old(cursor)
    {
      nodes := nodes[..|nodes| - 1];
      // SetState(Simulate), whose precondition the shortened list no longer meets in mode Place
      state, selectedPort, currPath := Simulate, None, NullPath;
    }

    /** Every cell of node `n`'s footprint is empty. */
    ghost predicate Free(n: Node)
      reads chars
      requires Fits(width, height, n) && chars.Length0 == height && chars.Length1 == width
    {
      Vacant(chars, n)
    }

    /** The overlap test: whether every cell of `n`'s footprint is empty, first row first. */
    method CheckFree(n: Node) returns (free: bool)
      requires chars.Length0 == height && chars.Length1 == width && Fits(width, height, n)
      ensures free == Free(n)
    {
      var j := 0;
      while j < n.height
        invariant 0 <= j <= n.height
        invariant forall y, x :: 0 <= y < height && 0 <= x < width && Covers(n, Pos(x, y)) && y < n.pos.y + j ==>
                    chars[y, x] == Empty
      {
        var i := 0;
        while i < n.width
          invariant 0 <= i <= n.width
          invariant forall y, x ::
                      0 <= y < height && 0 <= x < width && Covers(n, Pos(x, y)) &&
                      (y < n.pos.y + j || (y == n.pos.y + j && x < n.pos.x + i))
                      ==> chars[y, x] == Empty
        {
          if chars[n.pos.y + j, n.pos.x + i] != Empty {
            return false;
          }
          i := i + 1;
        }
        j := j + 1;
      }
      return true;
    }

    /**
     * Writes `n`'s shape over its footprint, row by row; no other cell changes. Afterwards
     * `n` shows, and so does every node that showed and lies apart from `n`: when `n` is
     * entry `count` of `ids` and apart from the drawn entries before it, it joins them.
     */
    method Stamp(n: Node, ghost store: seq<Node>, ghost ids: seq<nat>, ghost count: nat)
      requires chars.Length0 == height && chars.Length1 == width && Fits(width, height, n) && ShapeFits(n.shape, n.width, n.height)
      requires Drawn(chars, store, ids, count) && count < |ids| && store[ids[count]] == n
      requires forall t :: 0 <= t < count ==> Apart(store[ids[t]], n)
      modifies chars
      ensures forall y, x :: 0 <= y < height && 0 <= x < width ==>
                chars[y, x] == if Covers(n, Pos(x, y)) then n.shape[y - n.pos.y][x - n.pos.x] else old(chars[y, x])
      ensures Shows(chars, n)
      ensures Drawn(chars, store, ids, count + 1)
    {
      var j := 0;
      while j < n.height
        invariant 0 <= j <= n.height
        invariant forall y, x :: 0 <= y < height && 0 <= x < width ==>
                    chars[y, x] == if Covers(n, Pos(x, y)) && y < n.pos.y + j then n.shape[y - n.pos.y][x - n.pos.x]
                                   else old(chars[y, x])
      {
        var i := 0;
        while i < n.width
          invariant 0 <= i <= n.width
          invariant forall y, x :: 0 <= y < height && 0 <= x < width ==>
                      chars[y, x] == if Covers(n, Pos(x, y)) && (y < n.pos.y + j || (y == n.pos.y + j && x < n.pos.x + i))
                                     then n.shape[y - n.pos.y][x - n.pos.x]
                                     else old(chars[y, x])
        {
          chars[n.pos.y + j, n.pos.x + i] := n.shape[j][i];
          i := i + 1;
        }
        j := j + 1;
      }
      forall t | 0 <= t < count ensures Shows(chars, store[ids[t]]) {
        Untouched(store[ids[t]], n);
        assert old(Shows(chars, store[ids[t]]));
      }
      DrawnExtend(chars, store, ids, count);
    }

    /**
     * Commits the node being placed, all or nothing: when any cell of its footprint is not
     * empty nothing changes; otherwise its shape is written over the footprint, no other
     * cell changes, and the mode becomes simulation.
     */
    method PlaceNode() returns (o: Outcome)
      requires Valid() && state == Place
      modifies this, chars
      ensures Valid()
      ensures var n := old(store)[old(nodes)[|old(nodes)| - 1]];
              && Fits(width, height, n) && ShapeFits(n.shape, n.width, n.height)
              && (o.Done? <==> old(Free(n)))
              && (o.Done? || o == Failed(Overlap))
              && (o.Failed? ==> unchanged(this) && unchanged(chars))
              && (o.Done? ==> forall y, x :: 0 <= y < height && 0 <= x < width ==>
                                chars[y, x] == if Covers(n, Pos(x, y)) then n.shape[y - n.pos.y][x - n.pos.x]
                                               else old(chars[y, x]))
      ensures o.Done? ==> state == Simulate && selectedPort == None && currPath == NullPath
      ensures o.Done? ==> forall t :: 0 <= t < |nodes| - 1 ==> Apart(store[nodes[t]], store[nodes[|nodes| - 1]])
      ensures (store, nodes, nextSet, pathStore, paths, pathfinding, cursor)
           == old((store, nodes, nextSet, pathStore, paths, pathfinding, cursor))
    {
      var id := nodes[|nodes| - 1];
      var n := store[id];
      assert WellFormed(n) && Fits(width, height, n);
      var free := CheckFree(n);
      if !free {
        return Failed(Overlap);
      }
      Settle(id, n);
      o := Done;
    }

    /**
     * Writes the node being placed, `id`, whose footprint is empty, onto the grid and
     * enters the simulation mode; it lies apart from every placed node.
     */
    method Settle(id: nat, n: Node)
      requires Valid() && state == Place && |nodes| > 0 && id == nodes[|nodes| - 1] && n == store[id]
      requires Fits(width, height, n) && Free(n)
      modifies this, chars
      ensures Valid()
      ensures (store, nodes, nextSet, pathStore, paths, pathfinding, cursor)
           == old((store, nodes, nextSet, pathStore, paths, pathfinding, cursor))
      ensures forall y, x :: 0 <= y < height && 0 <= x < width ==>
                chars[y, x] == if Covers(n, Pos(x, y)) then n.shape[y - n.pos.y][x - n.pos.x] else old(chars[y, x])
      ensures (state, selectedPort, currPath) == (Simulate, None, NullPath)
      ensures forall t :: 0 <= t < |nodes| - 1 ==> Apart(store[nodes[t]], n)
    {
      assert WellFormed(n);
      FreeApart(chars, store, nodes, |nodes| - 1, id);
      Stamp(n, store, nodes, |nodes| - 1);
      Resume();
    }

    /**
     * SetState(Simulate) once the node being placed is on the grid: the whole node list
     * is drawn, the selection and the draft are dropped.
     */
    method Resume()
      requires Grid() && Inv(width, height, store, pathStore, nodes, nextSet, paths, currPath, selectedPort, cursor, state)
      requires Drawn(chars, store, nodes, |nodes|)
      modifies this
      ensures Valid() && (state, selectedPort, currPath) == (Simulate, None, NullPath)
      ensures (store, nodes, nextSet, pathStore, paths, pathfinding, cursor)
           == old((store, nodes, nextSet, pathStore, paths, pathfinding, cursor))
    {
      state, selectedPort, currPath := Simulate, None, NullPath;
    }

    /** Runs the interactive action of the node under the cursor. */
    method NodeAction() returns (o: Outcome)
      requires Valid()
      modifies this
      ensures Valid()
      ensures o.Failed? <==> FindNode(old(store), old(nodes), old(cursor)).None?
      ensures o.Done? || o == Failed(NoNode)
      ensures o.Failed? ==> unchanged(this)
      ensures o.Done? ==> var id := old(nodes)[FindNode(old(store), old(nodes), old(cursor)).value];
                          store == old(store)[id := Action(old(store)[id])]
      ensures (state, nodes, nextSet, pathStore, paths, cursor, selectedPort, currPath, pathfinding)
           == old((state, nodes, nextSet, pathStore, paths, cursor, selectedPort, currPath, pathfinding))
    {
      var k := FindNode(store, nodes, cursor);
      if k.None? {
        return Failed(NoNode);
      }
      var id := nodes[k.value];
      assert Fits(width, height, store[id]);
      DrawnKept(chars, store, store[id := Action(store[id])], nodes, Placed(nodes, state));
      ReplaceNode(id, Action(store[id]));
      o := Done;
    }

    /**
     * Renames the node under the cursor; an empty name falls back to the node's type text.
     * The name's first character goes to the centre of the node's shape and to the grid
     * cell at the centre of its footprint.
     */
    method Rename(name: string) returns (o: Outcome)
      requires Valid() && state != Place
      modifies this, chars
      ensures Valid()
      ensures o.Failed? <==> FindNode(old(store), old(nodes), old(cursor)).None?
      ensures o.Done? || o == Failed(NoNode)
      ensures o.Failed? ==> unchanged(this) && unchanged(chars)
      ensures o.Done? ==>
                var id := old(nodes)[FindNode(old(store), old(nodes), old(cursor)).value];
                var n := old(store)[id];
                var nm := if name == "" then n.typeName else name;
                var c := Pos(n.pos.x + n.width / 2, n.pos.y + n.height / 2);
                && |nm| > 0 && ShapeFits(n.shape, n.width, n.height) && 0 < n.width && 0 < n.height
                && store == old(store)[id := SetName(n, nm)]
                && forall y, x :: 0 <= y < height && 0 <= x < width ==>
                     chars[y, x] == if Pos(x, y) == c then CharCell(nm[0]) else old(chars[y, x])
      ensures (state, nodes, nextSet, pathStore, paths, cursor, selectedPort, currPath, pathfinding)
           == old((state, nodes, nextSet, pathStore, paths, cursor, selectedPort, currPath, pathfinding))
    {
      var k := FindNode(store, nodes, cursor);
      if k.None? {
        return Failed(NoNode);
      }
      var n := store[nodes[k.value]];
      Relabel(k.value, if name == "" then n.typeName else name);
      o := Done;
    }

    /** Gives the `k`-th listed node the non-empty name `nm`, on the grid and in the store. */
    method Relabel(k: nat, nm: string)
      requires Valid() && state != Place && k < |nodes| && |nm| > 0
      modifies this, chars
      ensures Valid()
      ensures var id := old(nodes)[k];
              var n := old(store)[id];
              var c := Pos(n.pos.x + n.width / 2, n.pos.y + n.height / 2);
              && ShapeFits(n.shape, n.width, n.height) && 0 < n.width && 0 < n.height
              && store == old(store)[id := SetName(n, nm)]
              && forall y, x :: 0 <= y < height && 0 <= x < width ==>
                   chars[y, x] == if Pos(x, y) == c then CharCell(nm[0]) else old(chars[y, x])
      ensures (state, nodes, nextSet, pathStore, paths, cursor, selectedPort, currPath, pathfinding)
           == old((state, nodes, nextSet, pathStore, paths, cursor, selectedPort, currPath, pathfinding))
    {
      var id := nodes[k];
      var n := store[id];
      assert WellFormed(n) && Fits(width, height, n);
      ghost var others := Lists.RemoveAt(nodes, k);
      DrawnRemoveAt(chars, store, nodes, k);
      WriteGlyph(n, nm, store, others, |nodes| - 1);
      DrawnRestored(chars, store, nodes, k, SetName(n, nm));
      ReplaceNode(id, SetName(n, nm));
    }

    /**
     * Puts `n` in place of node `id`; `n` has the node's place, size and ports, and the
     * grid already shows the placed nodes with `n` among them.
     */
    method ReplaceNode(id: nat, n: Node)
      requires Grid() && Inv(width, height, store, pathStore, nodes, nextSet, paths, currPath, selectedPort, cursor, state)
      requires id < |store| && WellFormed(n) && n.ports == store[id].ports && Fits(width, height, n)
      requires Drawn(chars, store[id := n], nodes, Placed(nodes, state))
      modifies this
      ensures Valid() && store == old(store)[id := n]
      ensures (state, nodes, nextSet, pathStore, paths, cursor, selectedPort, currPath, pathfinding)
           == old((state, nodes, nextSet, pathStore, paths, cursor, selectedPort, currPath, pathfinding))
    {
      ReplacedInv(width, height, store, pathStore, nodes, nextSet, paths, currPath, selectedPort, cursor, state, id, n);
      store := store[id := n];
    }

    /**
     * Writes the first character of `name` to the grid cell at the centre of `n`'s
     * footprint. A node that showed then shows renamed, and every node that showed and
     * lies apart from it still shows.
     */
    method WriteGlyph(n: Node, name: string, ghost store: seq<Node>, ghost ids: seq<nat>, ghost count: nat)
      requires chars.Length0 == height && chars.Length1 == width && Fits(width, height, n) && WellFormed(n) && |name| > 0
      requires Drawn(chars, store, ids, count) && forall t :: 0 <= t < count ==> Apart(store[ids[t]], n)
      modifies chars
      ensures forall y, x :: 0 <= y < height && 0 <= x < width ==>
                chars[y, x] == if Pos(x, y) == Centre(n) then CharCell(name[0]) else old(chars[y, x])
      ensures old(Shows(chars, n)) ==> Shows(chars, SetName(n, name))
      ensures Drawn(chars, store, ids, count)
    {
      var c := Centre(n);
      forall t | 0 <= t < count ensures !Covers(store[ids[t]], c) {
        Untouched(store[ids[t]], n);
      }
      PutCell(c, CharCell(name[0]), store, ids, count);
      if old(Shows(chars, n)) {
        forall y, x | 0 <= y < chars.Length0 && 0 <= x < chars.Length1 && Covers(n, Pos(x, y)) && Pos(x, y) != c
          ensures chars[y, x] == n.shape[y - n.pos.y][x - n.pos.x]
        {
          assert old(chars[y, x]) == n.shape[y - n.pos.y][x - n.pos.x];
        }
        RenamedShows(chars, n, name);
      }
    }

    /** Writes `c` to the grid cell at `p`; every drawn node that does not cover `p` still shows. */
    method PutCell(p: Pos, c: Cell, ghost store: seq<Node>, ghost ids: seq<nat>, ghost count: nat)
      requires chars.Length0 == height && chars.Length1 == width && 0 <= p.x < width && 0 <= p.y < height
      requires Drawn(chars, store, ids, count) && forall t :: 0 <= t < count ==> !Covers(store[ids[t]], p)
      modifies chars
      ensures forall y, x :: 0 <= y < height && 0 <= x < width ==>
                chars[y, x] == if Pos(x, y) == p then c else old(chars[y, x])
      ensures Drawn(chars, store, ids, count)
    {
      chars[p.y, p.x] := c;
      forall t | 0 <= t < count ensures Shows(chars, store[ids[t]]) {
        assert old(Shows(chars, store[ids[t]]));
      }
    }

    /**
     * Empties every cell of `n`'s footprint, row by row; no other cell changes, so every
     * node that showed and lies apart from `n` still shows.
     */
    method Erase(n: Node, ghost store: seq<Node>, ghost ids: seq<nat>, ghost count: nat)
      requires chars.Length0 == height && chars.Length1 == width && Fits(width, height, n)
      requires Drawn(chars, store, ids, count) && forall t :: 0 <= t < count ==> Apart(store[ids[t]], n)
      modifies chars
      ensures forall y, x :: 0 <= y < height && 0 <= x < width ==>
                chars[y, x] == if Covers(n, Pos(x, y)) then Empty else old(chars[y, x])
      ensures Drawn(chars, store, ids, count)
    {
      var j := 0;
      while j < n.height
        invariant 0 <= j <= n.height
        invariant forall y, x :: 0 <= y < height && 0 <= x < width ==>
                    chars[y, x] == if Covers(n, Pos(x, y)) && y < n.pos.y + j then Empty else old(chars[y, x])
      {
        var i := 0;
        while i < n.width
          invariant 0 <= i <= n.width
          invariant forall y, x :: 0 <= y < height && 0 <= x < width ==>
                      chars[y, x] == if Covers(n, Pos(x, y)) && (y < n.pos.y + j || (y == n.pos.y + j && x < n.pos.x + i))
                                     then Empty
                                     else old(chars[y, x])
        {
          chars[n.pos.y + j, n.pos.x + i] := Empty;
          i := i + 1;
        }
        j := j + 1;
      }
      forall t | 0 <= t < count ensures Shows(chars, store[ids[t]]) {
        Untouched(store[ids[t]], n);
        assert old(Shows(chars, store[ids[t]]));
      }
    }

    /**
     * Deletes the node under the cursor: it leaves the node list, exactly its footprint
     * becomes empty, and each path its ports list removes one equal entry of the global
     * path list, so a path listed there no more often than on its ports is gone. Then the first
     * connected port that lists one of the node's ports loses that entry, and the
     * command faults: the next statement uses a field ports do not have.
     */
    method DeleteNode() returns (o: Outcome)
      requires Valid() && state != Place
      modifies this, chars
      ensures Valid()
      ensures o.Failed? <==> FindNode(old(store), old(nodes), old(cursor)).None?
      ensures o.Failed? ==> o == Failed(NoNode) && unchanged(this) && unchanged(chars)
      ensures !o.Failed? ==>
                var k := FindNode(old(store), old(nodes), old(cursor)).value;
                var n := old(store)[old(nodes)[k]];
                && (forall y, x :: 0 <= y < height && 0 <= x < width ==>
                      chars[y, x] == if Covers(n, Pos(x, y)) then Empty else old(chars[y, x]))
                && Unplugged(old(store), old(nodes), old(paths), k, store, nodes, paths, o == Fault)
      ensures (state, nextSet, pathStore, cursor, selectedPort, currPath, pathfinding)
           == old((state, nextSet, pathStore, cursor, selectedPort, currPath, pathfinding))
    {
      var k := FindNode(store, nodes, cursor);
      if k.None? {
        return Failed(NoNode);
      }
      var n := store[nodes[k.value]];
      assert Fits(width, height, n);
      DrawnRemoveAt(chars, store, nodes, k.value);
      Erase(n, store, Lists.RemoveAt(nodes, k.value), |nodes| - 1);
      var store', nodes', paths', cut := Unplug(width, height, store, pathStore, nodes, paths, k.value);
      DeletedInv(width, height, store, pathStore, nodes, nextSet, paths, currPath, selectedPort, cursor, state, store', nodes', paths');
      DrawnKept(chars, store, store', nodes', |nodes'|);
      Commit(store', nodes', nextSet, paths');
      o := if cut then Fault else Done;
    }

    /** Installs a new store, node list, worklist and path list that keep the invariant and stay drawn. */
    method Commit(store': seq<Node>, nodes': seq<nat>, nextSet': seq<nat>, paths': seq<PathRef>)
      requires Grid() && Inv(width, height, store', pathStore, nodes', nextSet', paths', currPath, selectedPort, cursor, state)
      requires Drawn(chars, store', nodes', Placed(nodes', state))
      modifies this
      ensures Valid() && (store, nodes, nextSet, paths) == (store', nodes', nextSet', paths')
      ensures (state, pathStore, cursor, selectedPort, currPath, pathfinding)
           == old((state, pathStore, cursor, selectedPort, currPath, pathfinding))
    {
      store, nodes, nextSet, paths := store', nodes', nextSet', paths';
    }

    /**
     * Enter on a port in the connect mode. The first port chosen becomes the selected
     * one and starts the path search. A second port of the same kind is refused. A second
     * port already connected both ways to the selected one is disconnected; any other
     * second port is connected to it with the current draft path.
     */
    method SelectPort() returns (o: Outcome)
      requires Valid()
      modifies this
      ensures Valid()
      ensures (state, nodes, nextSet, pathStore, cursor) == old((state, nodes, nextSet, pathStore, cursor))
      ensures var cur := PortUnderCursor(old(store), old(nodes), old(cursor));
        && (cur.None? ==> o == Failed(NoPort) && unchanged(this))
        && (cur.Some? && old(selectedPort).None? ==>
              && o == Done && selectedPort == cur && pathfinding
              && (store, paths, currPath) == old((store, paths, currPath)))
        && (cur.Some? && old(selectedPort).Some? ==>
              var sel, c := old(selectedPort).value, cur.value;
              if PortOf(old(store), sel).dir == PortOf(old(store), c).dir then
                o == Failed(SameKind) && unchanged(this)
              else if !Linked(old(store), sel, c) then
                o == Done && Joined(old(store), old(paths), old(currPath), sel, c)
              else
                !pathfinding && Parted(pathStore, old(store), old(paths), old(currPath), sel, c, store, paths, currPath, selectedPort, o))
    {
      var cur := PortUnderCursor(store, nodes, cursor);
      if cur.None? {
        return Failed(NoPort);
      }
      var c := cur.value;
      if selectedPort.None? {
        selectedPort := Some(c);
        pathfinding := true;
        return Done;
      }
      var sel := selectedPort.value;
      if PortOf(store, sel).dir == PortOf(store, c).dir {
        return Failed(SameKind);
      }
      pathfinding := false;
      // the nested scan of both connection lists looks for `c` in the one and `sel` in the other
      if c in PortOf(store, sel).connections && sel in PortOf(store, c).connections {
        o := DisconnectPorts(sel, c);
      } else {
        ConnectPorts(sel, c);
        o := Done;
      }
    }

    /**
     * After the connect branch, from the lists `store0`, `paths0` and draft `currPath0`:
     * both ports list each other and the draft, which also joins the path list, and the
     * selection is dropped.
     */
    ghost predicate Joined(store0: seq<Node>, paths0: seq<PathRef>, currPath0: PathRef, sel: PortRef, c: PortRef)
      reads this
      requires RefOK(store0, sel) && RefOK(store0, c)
    {
      && store == Wiring.Connect(store0, sel, c, currPath0) && paths == paths0 + [currPath0]
      && selectedPort == None && !pathfinding && currPath == currPath0
    }

    /** The connect branch of a port selection. */
    method ConnectPorts(sel: PortRef, c: PortRef)
      requires Valid() && !pathfinding && RefOK(store, sel) && RefOK(store, c)
      modifies this
      ensures Valid()
      ensures Joined(old(store), old(paths), old(currPath), sel, c)
      ensures (state, nodes, nextSet, pathStore, cursor) == old((state, nodes, nextSet, pathStore, cursor))
    {
      ConnectWired(width, height, store, pathStore, sel, c, currPath);
      var store' := Wiring.Connect(store, sel, c, currPath);
      DrawnKept(chars, store, store', nodes, Placed(nodes, state));
      RewiredInv(width, height, store, pathStore, nodes, nextSet, paths, currPath, selectedPort, cursor, state,
                 store', paths + [currPath], currPath, None);
      store, paths, selectedPort := store', paths + [currPath], None;
    }

    /** The disconnect branch of a port selection. */
    method DisconnectPorts(sel: PortRef, c: PortRef) returns (o: Outcome)
      requires Valid() && !pathfinding && selectedPort == Some(sel) && RefOK(store, c)
      modifies this
      ensures Valid()
      ensures Parted(pathStore, old(store), old(paths), old(currPath), sel, c, store, paths, currPath, selectedPort, o)
      ensures (state, nodes, nextSet, pathStore, cursor, pathfinding) == old((state, nodes, nextSet, pathStore, cursor, pathfinding))
    {
      var store', paths', currPath', selected';
      store', paths', currPath', selected', o := Part(width, height, store, pathStore, nodes, nextSet, paths, currPath, cursor, state, sel, c);
      UnlinkedSameNodes(store, sel, c, ScanFrom(pathStore, PortOf(store, sel).paths, 0, PortPos(store, sel), PortPos(store, c)));
      DrawnKept(chars, store, store', nodes, Placed(nodes, state));
      Rewire(store', paths', currPath', selected');
    }

    /** Installs new port lists, path list, draft and selection that keep the invariant. */
    method Rewire(store': seq<Node>, paths': seq<PathRef>, currPath': PathRef, selected': Option<PortRef>)
      requires Valid() && Inv(width, height, store', pathStore, nodes, nextSet, paths', currPath', selected', cursor, state)
      requires Drawn(chars, store', nodes, Placed(nodes, state))
      modifies this
      ensures Valid() && (store, paths, currPath, selectedPort) == (store', paths', currPath', selected')
      ensures (state, nodes, nextSet, pathStore, cursor, pathfinding) == old((state, nodes, nextSet, pathStore, cursor, pathfinding))
    {
      store, paths, currPath, selectedPort := store', paths', currPath', selected';
    }

    /** Delete in the connect mode: the draft is dropped and the search stops. */
    method CancelConnect()
      requires Valid()
      modifies this
      ensures Valid()
      ensures selectedPort == None && currPath == NullPath && !pathfinding
      ensures state == old(state) && store == old(store) && nodes == old(nodes) && nextSet == old(nextSet)
      ensures pathStore == old(pathStore) && paths == old(paths) && cursor == old(cursor)
    {
      selectedPort := None;
      currPath := NullPath;
      pathfinding := false;
    }

    /** A cursor move in the inspect and connect modes: one cell, unless that leaves the grid. */
    method MoveCursor(s: Step) returns (moved: bool)
      requires Valid()
      modifies this
      ensures Valid()
      ensures var p := Pos(old(cursor).x + DX(s), old(cursor).y + DY(s));
              && (moved <==> OnGrid(width, height, p))
              && cursor == if moved then p else old(cursor)
      ensures state == old(state) && store == old(store) && nodes == old(nodes) && nextSet == old(nextSet)
      ensures pathStore == old(pathStore) && paths == old(paths)
      ensures selectedPort == old(selectedPort) && currPath == old(currPath) && pathfinding == old(pathfinding)
    {
      moved := false;
      match s
      case Left =>
        if cursor.x > 0 {
          cursor, moved := cursor.(x := cursor.x - 1), true;
        }
      case Right =>
        if cursor.x < width - 1 {
          cursor, moved := cursor.(x := cursor.x + 1), true;
        }
      case Up =>
        if cursor.y > 0 {
          cursor, moved := cursor.(y := cursor.y - 1), true;
        }
      case Down =>
        if cursor.y < height - 1 {
          cursor, moved := cursor.(y := cursor.y + 1), true;
        }
    }

    /**
     * Recomputes the draft path from the selected port to the cursor, when a search is
     * under way and the cursor is on a cell a path may use. With no port selected the
     * command faults after the rebuild of the neighbour lists.
     */
    method Pathfind() returns (o: Outcome)
      requires Valid() && state != Place
      modifies this, search
      ensures Valid()
      ensures (store, nodes, nextSet, paths, cursor) == old((store, nodes, nextSet, paths, cursor))
      ensures !old(pathfinding) || !Traversable(chars[cursor.y, cursor.x]) ==> o == Done && unchanged(this) && unchanged(search)
      ensures old(pathfinding) && Traversable(chars[cursor.y, cursor.x]) && old(selectedPort).None? ==>
                && o == Fault && Prepared(chars, search)
                && (state, selectedPort, currPath, pathfinding, pathStore) == old((state, selectedPort, currPath, pathfinding, pathStore))
      ensures old(pathfinding) && Traversable(chars[cursor.y, cursor.x]) && old(selectedPort).Some? ==>
                Drafted(PortPos(old(store), old(selectedPort).value), old(pathStore), old(state), old(selectedPort), o)
    {
      if !pathfinding {
        return Done;
      }
      var c := chars[cursor.y, cursor.x];
      if !Traversable(c) {
        return Done;
      }
      GetPathNeighbors(chars, search);
      if selectedPort.None? {
        return Fault;
      }
      PortOnGrid(width, height, store, selectedPort.value);
      o := Draft(PortPos(store, selectedPort.value));
    }

    /**
     * The state after a search from `start` to the cursor with outcome `o`. The new path
     * object, a route or the empty result, joins the arena and becomes the draft. A route
     * leads from the cursor back to `start`, and the mode and selection stay. A failure
     * happens only when no walk leads from `start` to the cursor; the search then stops,
     * the selection is dropped, the mode becomes simulation and the neighbour lists are
     * rebuilt.
     */
    ghost predicate Drafted(start: Pos, pathStore0: seq<PathObj>, state0: State, selectedPort0: Option<PortRef>, o: Outcome)
      reads this, chars, search
      requires SameShape(chars, search)
    {
      var n := |pathStore0|;
      && |pathStore| == n + 1 && pathStore[..n] == pathStore0 && currPath == PathObj(n)
      && (o == Done || o == Failed(NoPath))
      && (o == Done ==>
            && pathStore[n].Route? && IsRoute(chars, pathStore[n].positions, start, cursor)
            && state == state0 && selectedPort == selectedPort0 && pathfinding)
      && (o.Failed? ==>
            && pathStore[n] == NoRoute && Prepared(chars, search) && Unreachable(chars, start, cursor)
            && state == Simulate && selectedPort == None && !pathfinding)
    }

    /**
     * The search from `start` to the cursor, and its result assigned to the draft path.
     * A failed search also ends the connection: it stops the search, drops the selection
     * and returns to the simulation mode.
     */
    method Draft(start: Pos) returns (o: Outcome)
      requires Valid() && state != Place && pathfinding && selectedPort.Some? && start == PortPos(store, selectedPort.value)
      requires OnGrid(width, height, start) && TraversableAt(chars, cursor) && Prepared(chars, search)
      modifies this, search
      ensures Valid()
      ensures (store, nodes, nextSet, paths, cursor) == old((store, nodes, nextSet, paths, cursor))
      ensures Drafted(start, old(pathStore), old(state), old(selectedPort), o)
    {
      var found := SearchOrReset(chars, search, start, cursor);
      var id := |pathStore|;
      if found.Some? {
        NewPathInv(width, height, store, pathStore, nodes, nextSet, paths, currPath, selectedPort, cursor, state,
                   Route(found.value), selectedPort, state);
        pathStore, currPath := pathStore + [Route(found.value)], PathObj(id);
        o := Done;
      } else {
        NewPathInv(width, height, store, pathStore, nodes, nextSet, paths, currPath, selectedPort, cursor, state,
                   NoRoute, None, Simulate);
        pathfinding, selectedPort, state := false, None, Simulate;
        pathStore, currPath := pathStore + [NoRoute], PathObj(id);
        o := Failed(NoPath);
      }
    }

    /**
     * One evaluation step. An empty worklist is first seeded with the nodes connected to
     * the live Input nodes; then every node of the worklist, in order, reads its inputs,
     * pushes the nodes behind its output ports onto the next worklist, and applies its rule.
     */
    method Evaluate()
      requires Valid()
      modifies this
      ensures Valid()
      ensures var cur := Snapshot(old(store), old(nodes), old(nextSet));
              && IdsIn(old(store), cur)
              && store == Run(old(store), cur)
              && nextSet == Enqueue([], old(store), cur, false)
      ensures state == old(state) && nodes == old(nodes) && pathStore == old(pathStore) && paths == old(paths)
      ensures selectedPort == old(selectedPort) && currPath == old(currPath) && pathfinding == old(pathfinding)
      ensures cursor == old(cursor)
    {
      var cur := nextSet;
      if cur == [] {
        cur := SeedLoop(store, nodes);
        EnqueueInStore([], store, nodes, true);
      }
      var store', next := Propagate(store, cur);
      EnqueueInStore([], store, cur, false);
      SameButOutsWired(width, height, store, store', pathStore);
      EvaluatedInv(width, height, store, pathStore, nodes, nextSet, paths, currPath, selectedPort, cursor, state, store', next);
      DrawnKept(chars, store, store', nodes, Placed(nodes, state));
      Commit(store', nodes, next, paths);
    }

    /** One tick of the loop: the evaluation step runs in the simulation and inspect modes only. */
    method Tick()
      requires Valid()
      modifies this
      ensures Valid()
      ensures old(state) != Simulate && old(state) != Inspect ==> unchanged(this)
      ensures old(state) == Simulate || old(state) == Inspect ==>
                var cur := Snapshot(old(store), old(nodes), old(nextSet));
                && IdsIn(old(store), cur)
                && store == Run(old(store), cur)
                && nextSet == Enqueue([], old(store), cur, false)
      ensures state == old(state) && nodes == old(nodes) && pathStore == old(pathStore) && paths == old(paths)
      ensures selectedPort == old(selectedPort) && currPath == old(currPath) && pathfinding == old(pathfinding)
      ensures cursor == old(cursor)
    {
      if state == Simulate || state == Inspect {
        Evaluate();
      }
    }
  }
}
