# Logic-circuit sandbox: a Dafny model of its core

The program is a terminal-style logic-circuit sandbox drawn on a grid of single-character
cells. The user adds nodes to the grid: Input switches, Output lamps, and And, Nand, Or, Xor
and Not gates. Each node has a rectangular footprint with a wall border, a body, a name glyph
at its centre and `i`/`o` port markers. A node is added in a *place* mode and committed when
its footprint is free. In the *connect* mode the user selects two ports. A best-first grid
search draws a path between them, and a second selection toggles the connection. In the
*simulate* and *inspect* modes a worklist evaluation step runs on every tick. It propagates
outputs one hop downstream per tick.

The model follows the program's own structure:

- `Geometry`: grid positions, the cell characters and the per-point search record.
- `Lists`: the `indexOf` and `splice` idioms.
- `Catalog`: the node variants, their footprints, port layouts, logic rules and actions.
- `Placement`: the bounds test, the starting position of a new node and the hit test.
- `Engine`: the evaluation step, as folds over the node store, with the loops that compute them.
- `Router`: the neighbour rebuild and the search over open and closed lists.
- `Wiring`: port connection lists and path lists, and the scans over them.
- `Session`: the editor's modes, the invariant of its lists, and the list updates of deletion and disconnection.
- `Simulation`: class `Sim`, whose fields are the program's globals. Its methods are the commands that change them.

Object references become indices:

- Node objects live in an append-only arena `store`. The node list `nodes` holds indices into it.
- A deleted node stays in the arena. Other ports may still reference it, as they do in the program.
- A port is `PortRef(node, index)`.
- Path objects live in an arena `pathStore`. A path list holds `PathObj(id)` or `NullPath`.
- So `indexOf` on path lists keeps its identity semantics, and two equal routes found twice are still two objects.

The grid is two `array2`s: `chars` (each point's character) and `search` (its neighbour list,
f, g, h and predecessor).

`Sim.Valid` holds between commands. It joins the list invariant `Session.Inv` with a
placement invariant, `Session.Drawn`: every placed node shows its shape on `chars`, and no
two placed nodes overlap. A node is placed once it is committed. While a node is being
placed it is the last entry of the node list and is not yet counted (`Session.Placed`).

The program reaches `Rename`, `DeleteNode` and `NodeAction` only from the inspect mode, and
`Pathfind` only from the connect mode. It calls `SetState` outside the place mode, except
from `PlaceNode`, `CancelPlace` and `AddNode`. So these methods require `state != Place`.
The model writes the mode change of those three commands out in `Sim.Resume`,
`Sim.CancelPlace` and `Sim.Adopt`.

## Model

| member | source | states |
|---|---|---|
| Geometry.CharCell | app.js:857 | a one-character name maps to a cell; `i` and `o` become the port markers, `=` a wall, `-` body, anything else a glyph holding that character, never the empty cell |
| Geometry.NeighborListExact | app.js:1108-1141 | `q` is in `p`'s rebuilt neighbour list exactly when both are traversable grid cells and 4-adjacent |
| Geometry.NeighborSymmetric | app.js:1108-1141 | the neighbour relation is symmetric |
| Lists.IndexOf | app.js:544 | `indexOf`: the first index holding `x`, or -1 exactly when `x` is absent |
| Lists.RemoveAtCount | app.js:546 | `splice(i, 1)` removes one occurrence of `s[i]` and nothing else (as multisets) |
| Lists.RemoveAtIndex | app.js:546 | after `splice(i, 1)` earlier entries keep their index and later ones move down by one |
| Lists.RemoveFirstCount | app.js:564-565 | removing the first `x` takes away one occurrence of `x`, if there is one, and nothing else |
| Lists.RemoveEachCount | app.js:562-568 | removing each element of `xs` in turn takes away, per value, as many occurrences as `xs` holds |
| Lists.RemoveEachAbsent | app.js:562-568 | a value held no more often in the list than in `xs` is gone afterwards |
| Catalog.ArityIsInCount | app.js:869-975 | a well-formed node has exactly as many input ports as its variant's input vector is long |
| Catalog.Logic | app.js:896-974 | on 0/1 inputs: And is 1 iff both are 1, Nand iff not both, Or iff either, Xor iff they differ, Not iff the input is 0; Output copies input 0; Input keeps `out` (base no-op); every result is 0/1 |
| Catalog.NandNegatesAnd | app.js:909-930 | on every two-entry vector, not only 0/1 ones, Nand is `1 -` And |
| Catalog.Action | app.js:865-895 | Input flips `out` (`1 - out`), Output moves to the next of its two character sets, every other node is unchanged; well-formedness is kept |
| Catalog.ActionTwice | app.js:876-895 | applying the action twice restores a well-formed node |
| Catalog.InitShape | app.js:840-853 | the blank mask has `h` rows of `w` cells, wall on the border columns and rows, body inside |
| Catalog.Write | app.js:854-864 | a one-cell write to the mask changes that cell only and keeps the row lengths |
| Catalog.SetName | app.js:854-859 | sets the name, writes its first character's cell at `(width/2, height/2)` of the mask, and changes nothing else |
| Catalog.CreatePort | app.js:860-864 | appends an unconnected, path-free port and writes its marker at its offset; no other cell or field changes |
| Catalog.NewBaseNode | app.js:828-839 | the base constructor: variant size, type text and default name, output 0, no ports, and the blank mask with the name glyph at the centre |
| Catalog.AddPorts | app.js:869-975 | the variant constructors' port calls: the ports of the layout in order, and each port's marker over the mask where the layout puts a port |
| Catalog.CreateNode | app.js:1016-1035 | a fresh node of the variant at (0, 0): the variant's layout, texts, output 0, first character set, no connections or paths, and the mask of `LayoutCell` |
| Placement.CanMove | app.js:428-439 | the bounds test holds iff `0 <= x`, `x + w - 1 < width`, `0 <= y` and `y + h - 1 < height` |
| Placement.CanMoveCovers | app.js:428-439 | for a non-empty footprint, the test holds exactly when every covered point is on the grid |
| Placement.ClampAccepted | app.js:1000-1009 | from a cursor on the grid, the clamped start of a node no larger than the grid passes the bounds test, and equals the cursor when the cursor's position already passes it |
| Placement.FindNode | app.js:486-499 | the hit test returns the first listed node covering the point, and none exactly when no listed node covers it |
| Engine.Push | app.js:119-124 | pushes an id unless present: the members become the old ones plus the id, no duplicates appear, and the old list is a prefix |
| Engine.AddOwners | app.js:119-124 | pushes the owner of each connection: exactly the old members plus those owners, duplicate free, old list a prefix |
| Engine.ReachMembers | app.js:93-124 | after the port loop, an id is queued iff it was queued or a (output, unless seeding) port of the node connects to it |
| Engine.EnqueueMembers | app.js:93-124 | after the node loop, an id is queued iff it was queued or a taking-part node of the list feeds it |
| Engine.EnqueueIgnoresOuts | app.js:119-124 | the worklist depends only on the ports, so outputs written earlier in the step do not change it |
| Engine.EnqueueInStore | app.js:119-124 | every queued id names a stored node |
| Engine.Gather | app.js:110-118 | the input vector has one entry per input port and 0/1 entries when all outputs are 0/1 |
| Engine.GatherEntry | app.js:110-118 | entry number `k` of the input vector is the value of the `k`-th input port: the output of the node behind its first connection, or 0 |
| Engine.Fire | app.js:108-126 | a node firing changes only its own output, keeps the store valid, and leaves an Input node unchanged |
| Engine.OutsKeepStore | app.js:126 | writing 0/1 outputs keeps every node well formed and every connection valid |
| Engine.Run | app.js:108-126 | the whole pass changes only outputs, and never those of Input nodes or of nodes outside the worklist |
| Engine.Snapshot | app.js:93-107 | the evaluated list is the pending worklist, or, when that is empty, a duplicate-free seeded one |
| Engine.NextWorklist | app.js:106-124 | the next worklist is duplicate free and holds exactly the nodes connected to an output port of a node in the snapshot |
| Engine.SeedWorklist | app.js:93-104 | the seeded worklist holds exactly the nodes connected to some port of a live Input node |
| Engine.EnqueueOwners | app.js:120-123 | the connection loop computes `AddOwners` |
| Engine.SeedLoop | app.js:93-104 | the seeding loops compute the seeded worklist |
| Engine.ScanPorts | app.js:110-124 | one node's port loop yields its input vector and the worklist with its output ports' targets added |
| Engine.Propagate | app.js:106-126 | the loop over the snapshot leaves the store `Run` describes and the next worklist `Enqueue` describes |
| Engine.Visit | app.js:108-126 | one node of the pass: the store after it fires and the worklist with its targets |
| Engine.PropagateStep | app.js:108-126 | firing the next node of the worklist advances both folds by one node |
| Router.NeighborInGrid | app.js:1111-1139 | every listed neighbour is a traversable, 4-adjacent cell of the grid |
| Router.PointNeighbors | app.js:1111-1139 | one point's rebuild pushes right, left, down and up neighbours that are traversable, none for a non-traversable point |
| Router.GetPathNeighbors | app.js:1099-1141 | after the rebuild every point's search fields are cleared and its neighbour list is the current one |
| Router.CellsNeighbors | app.js:1143-1221 | the search invariant keeps every neighbour list current |
| Router.LowestF | app.js:1149-1157 | the chosen open cell has the lowest f, and it is the first such cell |
| Router.WalkStaysInside | app.js:1190-1212 | a walk from a cell of a neighbour-closed set never leaves it |
| Router.TracePath | app.js:1176-1188 | following predecessors from the goal gives a path that starts at the goal, ends at the start, and is a backward walk over traversable cells |
| Router.TraceStep | app.js:1179-1183 | each predecessor was closed before its successor, so tracing moves strictly back and stays a walk |
| Router.RelaxCell | app.js:1190-1212 | scoring a neighbour keeps the search state, keeps every open cell open, and leaves the neighbour open; its entry becomes `Scored` of the old one with g one more than the closed cell's and h the Manhattan distance to the goal (an update exactly when that g exceeds the stored g, f from the old g and h), and no other point's entry changes |
| Router.StaysOpen | app.js:1196-1211 | a neighbour not improved already has a positive g, so it is open |
| Router.Relink | app.js:1204-1211 | an improved neighbour's entry becomes the given one, with the closed cell as predecessor, no other point's entry changes, and the neighbour joins the open list once |
| Router.Relax | app.js:1190-1212 | after the neighbour loop every neighbour of the just-closed cell is open or closed |
| Router.OpenGrows | app.js:1210-1211 | appending an unclosed cell not yet open keeps the open list duplicate free and disjoint from the closed one |
| Router.CellGrows | app.js:1210-1211 | the per-point invariant survives a growing open list |
| Router.ReachedOneMore | app.js:1190-1212 | each neighbour handled extends the handled prefix by one |
| Router.ExpandLast | app.js:1190-1212 | once all neighbours of the last closed cell are reached, every closed cell is expanded |
| Router.InitialState | app.js:1144-1147 | the search starts with only `start` open and every point cleared, which meets its invariant |
| Router.Exhausted | app.js:1214-1220 | with the open list empty, no walk leads from `start` to an unclosed goal |
| Router.CreatePath | app.js:1143-1221 | the search terminates; a returned path is a route from the goal back to the start, and no path is returned only when none exists |
| Router.StepPreserves | app.js:1164-1174 | moving the chosen cell from open to closed keeps the search invariant |
| Router.RemoveAt | app.js:1165-1167 | splicing the chosen cell out of a duplicate-free open list leaves exactly the others |
| Router.StepLists | app.js:1164-1174 | the moved cell keeps the lists in the grid, duplicate free and disjoint |
| Router.StepCell | app.js:1164-1174 | one point's invariant survives the move |
| Router.StepCells | app.js:1164-1174 | every point's invariant survives the move |
| Router.StepPrevEarlier | app.js:1164-1174 | every closed cell's predecessor is still closed before it |
| Router.StepRooted | app.js:1164-1174 | only `start` still lacks a predecessor |
| Router.StepExpanded | app.js:1164-1174 | the expanded closed cells stay expanded |
| Router.SearchOrReset | app.js:1214-1220 | a failed search rebuilds every neighbour list and proves the goal unreachable |
| Wiring.SetPort | app.js:790-796 | replacing one port keeps the store length and which ports exist |
| Wiring.SetPortOK | app.js:790-796 | a replacement with the same name, offset, kind and valid references keeps the store valid |
| Wiring.Attach | app.js:790-796 | appending to one port's lists keeps which ports exist |
| Wiring.Connect | app.js:790-796 | connecting keeps the store length and which ports exist |
| Wiring.ConnectEffect | app.js:790-796 | after connecting, each port lists the other last and the path last, on top of its old lists; every other port is unchanged; the two ports are linked |
| Wiring.ConnectOK | app.js:790-796 | connecting with a valid path reference keeps the store valid |
| Wiring.Detach | app.js:709-762 | dropping a connection keeps which ports exist |
| Wiring.DropPathAt | app.js:740-755 | dropping one path entry keeps which ports exist |
| Wiring.DropPath | app.js:772-774 | dropping a path reference keeps which ports exist |
| Wiring.ShrinkOK | app.js:709-781 | shrinking a port's lists keeps the store valid |
| Wiring.EndsMatchEitherWay | app.js:729-755 | the end test accepts exactly the paths between the two port positions, in either direction |
| Wiring.ScanFrom | app.js:724-756 | the path scan returns the first matching entry, after readable non-matching ones; `Missing` only when every entry is a non-matching route |
| Wiring.ScanBroken | app.js:724-756 | a `Broken` scan met an entry without positions before any match |
| Wiring.FindPath | app.js:724-756 | the scan loop computes `ScanFrom` |
| Wiring.PortUnder | app.js:674-681 | returns the first port at the point, and none exactly when no port of the node sits there |
| Wiring.RemoveEachAppend | app.js:562-568 | removing the paths of two lists is removing those of the first, then those of the second |
| Wiring.BackLinkFrom | app.js:571-576 | a back-link found names an existing port and an index in its connection list |
| Wiring.BackLinkFound | app.js:571-576 | a back-link found is an entry, in a connected port's list, naming the deleted node's port it came from |
| Wiring.BackLinkFromNone | app.js:571-576 | with no back-link from a point on, no later connected port lists the port it came from |
| Wiring.BackLinkNone | app.js:571-576 | without a back-link, no port connected to the node lists the node's port |
| Wiring.DropEach | app.js:563-567 | the inner loop removes the first equal entry of each reference |
| Wiring.DropPaths | app.js:562-568 | the deletion's path loop removes the first equal entry of every path reference of every port |
| Wiring.FindBackLink | app.js:571-574 | the nested loop finds the back-link `BackLinkFrom` describes |
| Wiring.CutBackLink | app.js:571-575 | the cut keeps which ports exist |
| Wiring.RemoveBackLink | app.js:571-576 | the splice loop cuts the first back-link and reports whether it found one |
| Wiring.Unlink | app.js:709-781 | a disconnect keeps which ports exist |
| Wiring.SetPortTwice | app.js:709-781 | a port replaced twice holds only the second replacement |
| Wiring.UnlinkInSteps | app.js:714-775 | `Unlink` is the four single edits in the order the disconnect makes them |
| Wiring.RemoveFirstAppended | app.js:709-762 | an appended value absent before is found last, and removing its first occurrence undoes the append |
| Wiring.ToggleTwice | app.js:709-796 | connecting two unconnected ports with a fresh path and then disconnecting them, with that path found, restores every port |
| Wiring.SetPortEffect | app.js:709-796 | a port replacement changes that port only |
| Wiring.SamePortsSameStore | app.js:709-796 | stores with the same nodes and the same ports are equal |
| Wiring.ScanFindsAppended | app.js:724-756 | a matching path appended behind non-matching routes is the one the scan finds |
| Session.PortInside | app.js:860-864 | port offsets lie inside the node's footprint |
| Session.PortOnGrid | app.js:802-812 | a port of a node on the grid is on the grid |
| Session.StoreGrows | app.js:998 | appending a fresh, unconnected node keeps the store valid |
| Session.ReplaceNodeOK | app.js:584-659 | replacing a node by a well-formed one with the same ports keeps the store valid |
| Session.PathStoreGrows | app.js:818 | a new path object keeps every path reference valid |
| Session.PortUnderCursor | app.js:662-681 | the selected port is the first port, on the first node under the cursor, that sits at the cursor; none exactly when there is no such node or port |
| Session.FitSameNodes | app.js:709-796 | port edits keep every node on the grid |
| Session.ShrinkWired | app.js:709-781 | shrinking a port's lists keeps the store invariants |
| Session.DetachWired | app.js:709-762 | dropping a connection keeps the store invariants |
| Session.DropPathWired | app.js:772-774 | dropping a path reference keeps the store invariants |
| Session.DropPathAtWired | app.js:740-755 | dropping a path entry keeps the store invariants |
| Session.DropLinkWired | app.js:574-575 | splicing a connection out keeps the store invariants |
| Session.ConnectWired | app.js:790-796 | a connection keeps the store invariants |
| Session.CutWired | app.js:571-576 | cutting a back-link keeps the store invariants |
| Session.RemoveIdAt | app.js:544-546 | removing a node's entry keeps the node list duplicate free, in the store, and without that node |
| Session.RefsKept | app.js:562-568 | references kept from a valid list stay valid |
| Session.SameButOutsWired | app.js:126 | changing outputs only keeps the store invariants |
| Session.AddedInv | app.js:997-1011 | a fresh, unconnected node appended for placing keeps the list invariant in the place mode, and the placed nodes stay drawn |
| Session.EvaluatedInv | app.js:92-127 | new outputs and a duplicate-free worklist of stored nodes keep the list invariant |
| Session.DeletedInv | app.js:535-576 | the list updates of a deletion keep the list invariant |
| Session.UnlinkedSameNodes | app.js:709-781 | a disconnect changes port lists only, so every node keeps its place and look |
| Session.ApartExact | app.js:448-455 | two non-empty footprints lie apart exactly when no point is covered by both |
| Session.VacantApart | app.js:448-455 | the overlap test is sound: a shown node lies apart from a footprint on the grid whose every cell is empty |
| Session.FreeApart | app.js:441-474 | a node whose footprint passes the overlap test lies apart from every drawn node |
| Session.DrawnExtend | app.js:466-468 | a node written onto a free footprint joins the drawn nodes |
| Session.DrawnRemoveAt | app.js:544-559 | dropping a node from the list keeps the others drawn and apart from it |
| Session.DrawnKept | app.js:92-127 | nodes that keep their place, size and shape stay drawn, as after an evaluation step or a port edit |
| Session.DisjointKept | app.js:289-322 | nodes that keep their place and size stay pairwise apart |
| Session.RenamedShows | app.js:592-601 | a grid that holds a node's shape except the name's first character at the centre shows the renamed node |
| Session.DrawnRestored | app.js:584-601 | putting a node back at its place, showing, makes the whole list drawn again |
| Session.LastNotPlaced | app.js:447-448 | the node being placed is none of the placed nodes |
| Session.Unplug | app.js:543-576 | deletion's list updates: the node leaves the list, each path reference listed on its ports removes one equal entry of the path list, the first back-link is cut, and the invariants hold |
| Session.NewPathInv | app.js:803-819 | a new draft path keeps the invariant, with or without the selection |
| Session.RewiredInv | app.js:709-799 | new port lists and references that are valid keep the invariant |
| Session.ReplacedInv | app.js:584-659 | replacing a node in place keeps the invariant |
| Session.Disconnect | app.js:709-775 | the disconnect's port edits: `sel` drops `c`, the scan runs, and on a match both ports drop the connection and the path; an unreadable entry stops after the first edit |
| Session.Part | app.js:709-781 | the disconnect branch: the port edits, the path list losing its first entry when the path is listed, the selection and draft dropped only on a match, a fault on an unreadable entry, and the invariant kept |
| Simulation.Sim.constructor | app.js:66-83 | a fresh session: every point empty and cleared, no nodes or paths, the simulate mode, cursor at the origin |
| Simulation.Sim.SetState | app.js:1047-1057 | entering a mode also drops the selected port and the draft path; nothing else changes, and the placement invariant holds in the new mode |
| Simulation.Sim.AddNode | app.js:983-1014 | refused in the place mode and always done otherwise: a fresh node of the kind, at the clamped cursor position, joins the list and the mode becomes place |
| Simulation.Sim.Adopt | app.js:997-1011 | the new node is stored and appended to the node list, the mode becomes place with no selection or draft, and the placed nodes stay drawn |
| Simulation.Sim.MovePlaced | app.js:289-322 | a place-mode move changes the node's position only when the moved footprint passes the bounds test; the cursor follows the node |
| Simulation.Sim.Relocate | app.js:289-322 | moving the node being placed changes only its entry and the cursor, and the placed nodes stay drawn |
| Simulation.Sim.CancelPlace | app.js:476-483 | the node being placed leaves the list and the mode becomes simulate |
| Simulation.Sim.CheckFree | app.js:448-455 | the overlap scan answers whether every footprint cell is empty |
| Simulation.Sim.Stamp | app.js:466-468 | the commit writes the shape over the footprint and no other cell; the node then shows, and joins the drawn nodes it lies apart from |
| Simulation.Sim.PlaceNode | app.js:441-474 | all or nothing: an occupied footprint cell leaves grid and state unchanged; otherwise exactly the footprint gets the shape, the mode becomes simulate, and the new node is placed apart from every placed node |
| Simulation.Sim.Settle | app.js:465-471 | a node with a free footprint is written onto the grid, lies apart from every placed node, and the whole node list is drawn in the simulate mode |
| Simulation.Sim.Resume | app.js:471 | leaving the place mode once the last node is drawn: simulate, no selection or draft, nothing else changes |
| Simulation.Sim.NodeAction | app.js:649-659 | with no node under the cursor nothing changes; otherwise that node takes its action |
| Simulation.Sim.Rename | app.js:584-601 | with no node under the cursor nothing changes; otherwise the node takes the name (its type text when empty) and the first character goes to the mask's centre and to the centre grid cell only |
| Simulation.Sim.Relabel | app.js:592-601 | the `k`-th node takes a non-empty name in the store and on the grid; only the centre cell changes and every node stays drawn |
| Simulation.Sim.ReplaceNode | app.js:584-659 | a node replaced in place keeps the invariant |
| Simulation.Sim.WriteGlyph | app.js:598-601 | the name's first character goes to the centre cell only; a node that showed shows renamed, and the drawn nodes apart from it still show |
| Simulation.Sim.PutCell | app.js:601 | one grid cell changes, and every drawn node not covering it still shows |
| Simulation.Sim.Erase | app.js:552-559 | exactly the footprint cells become empty, and the drawn nodes apart from it still show |
| Simulation.Sim.DeleteNode | app.js:535-576 | with no node under the cursor nothing changes; otherwise exactly its footprint empties, it leaves the node list, each path reference listed on its ports removes one equal entry of the path list, and the first back-link is cut, then the command faults; the remaining nodes stay drawn |
| Simulation.Sim.SelectPort | app.js:661-801 | no port: nothing changes; first port: selected and search started; same kind: refused with nothing changed; linked both ways: disconnected; otherwise connected with the draft path |
| Simulation.Sim.ConnectPorts | app.js:783-799 | both ports list each other and the draft, the draft joins the path list, the selection is dropped |
| Simulation.Sim.DisconnectPorts | app.js:709-781 | the disconnect branch on the session's fields, as `Part` states |
| Simulation.Sim.Rewire | app.js:709-799 | installs new port lists, path list, draft and selection that keep the invariant |
| Simulation.Sim.CancelConnect | app.js:406-410 | delete in the connect mode drops the selection and the draft and stops the search |
| Simulation.Sim.MoveCursor | app.js:326-402 | the cursor moves one cell unless that leaves the grid |
| Simulation.Sim.Pathfind | app.js:803-819 | nothing happens unless a search is under way and the cursor is on a traversable cell; with no port selected the neighbour rebuild runs and the command faults; otherwise the draft is recomputed |
| Simulation.Sim.Draft | app.js:812-818 | the new path object becomes the draft; a route leads from the cursor back to the selected port; a failure happens only when no walk exists, and then the search stops, the selection is dropped and the mode becomes simulate |
| Simulation.Sim.Evaluate | app.js:92-127 | one step: the store becomes the sequential pass over the snapshot, and the worklist becomes the duplicate-free set of nodes one hop downstream; the grid and the placement invariant are kept |
| Simulation.Sim.Commit | app.js:535-576 | installs a store, node list, worklist and path list that keep both invariants, and changes nothing else |
| Simulation.Sim.Tick | app.js:53-56 | the evaluation runs in the simulate and inspect modes only |

## Left out

- Rendering and the page: `UpdateField`, `UpdateSpinner`, `GetInfo`, `ClearInfoText`, `Debug`, the `innerHTML` write in `SetState`, and the display fields `info`, `action` and `charSets`' HTML strings. They only draw or print.
- The `keydown` dispatch itself: each command it reaches is a method of `Sim`. The model does not capture which key reaches which command in which mode.
- The place mode snaps the cursor to the node being placed after every key (the assignment after the place-mode switch). That snap is part of the dispatch, and the model leaves it out for every key other than the moves. `MovePlaced` models it for the move keys.
- `prompt` in `Rename`: the new name is the parameter of `Sim.Rename`.
- Simulation.Sim.Rename: `substr(0, 1)` takes one UTF-16 code unit, while a Dafny `string` holds Unicode scalar values. For a name that starts with a character outside the Basic Multilingual Plane, the program writes a lone surrogate and the model writes the whole character. The same holds for `Catalog.SetName`. Only the drawn glyph differs.
- `RunLoop`, with its timer delays, the `ticks` counter and the pause wait: one call of `Sim.Tick` is one loop iteration.
- `StringReplace` is unused by the program.
- `MoveNode` and `DuplicateNode` are not modelled. They are compositions of `DeleteNode` (which faults part-way when the node is connected), `CreateNode` and a mode change.
- The `default` branch of `CreateNode` (an unknown type name yields an Input node) does not arise, because the kind is an enumeration.
- `CreatePath`'s guard for an open list with no cell below `Math.pow(10, 1000)` cannot fire, because every f-score is finite. `LowestF` picks the first cell with the lowest f instead.
- Router.CreatePath: does not state that the path is a shortest one or its length. The neighbour update compares `g > neighbor.g` and computes f from the old g and h, and the model keeps both as written.
- Simulation.Sim.DeleteNode: states that each path reference on the node's ports removes one equal entry of the path list, not that the path is absent afterwards. The path list can hold a path more often than the ports do, because `ConnectPorts` pushes a reused draft or a `null` one again. Absence holds when a path is listed no more often than on the ports; `Lists.RemoveEachAbsent` proves it.
- Session.Unplug: the same as `DeleteNode` for the path list.
- Simulation.Sim.DeleteNode: the deletion's back-link loop calls `splice` on a port field that does not exist (`pathIndices`), so the program throws right after the first back-link's connection splice. The model stops there with outcome `Fault` and keeps the state reached at that point.
- Session.Part: the disconnect removes the path from the global list with `paths.splice(pathToRemove, 1)`. Given an object as its start index, `splice` removes the first entry. The model does this as written.
- Simulation.Sim.ConnectPorts: the draft pushed onto the lists may be `null` (no search yet) or the empty result of a failed search. The model keeps such entries (`NullPath`, `NoRoute`).
- Session.Disconnect: a path list entry without positions (`null` or the empty result) makes the scan throw. The model reports `Fault` and keeps the first connection removal, which happened before the scan.
- The single-connection check for input ports is commented out in the program, so the model does not assume it. `InputValue` reads the first connection only.
- Grid size: `Sim` requires at least 5 x 5 cells, so that every node fits the grid. The program builds a single 50 x 25 grid.
