/**
 * The values the session keeps between commands: its modes, the invariant of its lists,
 * and the list updates of the commands with the invariants they keep.
 */
module Session {
  import opened Geometry
  import opened Catalog
  import opened Engine
  import opened Placement
  import opened Router
  import opened Wiring
  import Lists

  /** The modes of the editor. */
  datatype State = Simulate | Paused | Place | Inspect | Connect

  /** The failures a command reports (and otherwise ignores). */
  datatype Error =
    | Busy            // a node is already being placed
    | Overlap         // the footprint meets a non-empty cell
    | NoNode          // no node under the cursor
    | NoPort          // no port of that node under the cursor
    | SameKind        // both ports are inputs, or both outputs
    | NoPathToRemove  // a disconnect found no path joining the two ports
    | NoPath          // the search exhausted its open list

  /**
   * How a command ends: normally, with a reported failure, or with a fault, the program
   * throwing an exception part-way through and leaving the state as it was at that point.
   */
  datatype Outcome = Done | Failed(error: Error) | Fault

  /** Every stored node's footprint lies on a `width` x `height` grid. */
  predicate AllFit(width: int, height: int, store: seq<Node>)
  {
    forall i :: 0 <= i < |store| ==> Fits(width, height, store[i])
  }

  /** The port offsets of a well-formed node lie inside its footprint. */
  lemma PortInside(n: Node, q: nat)
    requires WellFormed(n) && q < |n.ports|
    ensures 0 <= n.ports[q].offset.x < n.width && 0 <= n.ports[q].offset.y < n.height
  {
    assert n.ports[q].offset == Layout(n.kind)[q].offset;
  }

  /** A port of a node that fits the grid sits on the grid. */
  lemma PortOnGrid(width: int, height: int, store: seq<Node>, r: PortRef)
    requires StoreOK(store) && AllFit(width, height, store) && RefOK(store, r)
    ensures OnGrid(width, height, PortPos(store, r))
  {
    assert WellFormed(store[r.node]) && Fits(width, height, store[r.node]);
    PortInside(store[r.node], r.index);
  }

  /** Appending an unconnected, path-free node keeps the store and its path lists valid. */
  lemma StoreGrows(store: seq<Node>, pathStore: seq<PathObj>, n: Node)
    requires StoreOK(store) && PortPathsOK(store, pathStore)
    requires WellFormed(n)
    requires forall q :: 0 <= q < |n.ports| ==> n.ports[q].connections == [] && n.ports[q].paths == []
    ensures StoreOK(store + [n]) && PortPathsOK(store + [n], pathStore)
  {
    var s := store + [n];
    forall i | 0 <= i < |s| ensures WellFormed(s[i]) && PortsOK(s, s[i].ports) {
      if i < |store| {
        assert s[i] == store[i] && PortsOK(store, store[i].ports);
        forall q, c | 0 <= q < |s[i].ports| && c in s[i].ports[q].connections ensures RefOK(s, c) {
          assert RefOK(store, c);
          assert s[c.node] == store[c.node];
        }
      }
    }
  }

  /**
   * Adding a fresh, unconnected node to be placed keeps the invariant, and the nodes
   * placed so far stay drawn.
   */
  lemma AddedInv(width: int, height: int, store: seq<Node>, pathStore: seq<PathObj>, nodes: seq<nat>, nextSet: seq<nat>,
                 paths: seq<PathRef>, currPath: PathRef, selectedPort: Option<PortRef>, cursor: Pos, state: State,
                 chars: array2<Cell>, n: Node)
    requires Inv(width, height, store, pathStore, nodes, nextSet, paths, currPath, selectedPort, cursor, state)
    requires state != Place && Drawn(chars, store, nodes, Placed(nodes, state))
    requires WellFormed(n) && Fits(width, height, n)
    requires forall q :: 0 <= q < |n.ports| ==> n.ports[q].connections == [] && n.ports[q].paths == []
    ensures Inv(width, height, store + [n], pathStore, nodes + [|store|], nextSet, paths, NullPath, None, cursor, Place)
    ensures Drawn(chars, store + [n], nodes + [|store|], Placed(nodes + [|store|], Place))
  {
    StoreGrows(store, pathStore, n);
    var s', ids' := store + [n], nodes + [|store|];
    forall t | 0 <= t < |nodes| ensures Shows(chars, s'[ids'[t]]) {
      assert ids'[t] == nodes[t] && s'[nodes[t]] == store[nodes[t]] && Shows(chars, store[nodes[t]]);
    }
    forall t, u | 0 <= t < u < |nodes| ensures Apart(s'[ids'[t]], s'[ids'[u]]) {
      assert ids'[t] == nodes[t] && ids'[u] == nodes[u] && Apart(store[nodes[t]], store[nodes[u]]);
    }
  }

  /** Replacing a node by a well-formed one with the same ports keeps the store valid. */
  lemma ReplaceNodeOK(store: seq<Node>, pathStore: seq<PathObj>, id: nat, n: Node)
    requires StoreOK(store) && PortPathsOK(store, pathStore) && id < |store|
    requires WellFormed(n) && n.ports == store[id].ports
    ensures StoreOK(store[id := n]) && PortPathsOK(store[id := n], pathStore)
  {
    var s := store[id := n];
    forall i | 0 <= i < |s| ensures WellFormed(s[i]) && PortsOK(s, s[i].ports) {
      assert PortsOK(store, store[i].ports);
      forall q, c | 0 <= q < |s[i].ports| && c in s[i].ports[q].connections ensures RefOK(s, c) {
        assert RefOK(store, c);
      }
    }
  }

  /** A longer path arena keeps every path reference valid. */
  lemma PathStoreGrows(store: seq<Node>, pathStore: seq<PathObj>, o: PathObj)
    requires PortPathsOK(store, pathStore)
    ensures PortPathsOK(store, pathStore + [o])
  {
    forall i, q | 0 <= i < |store| && 0 <= q < |store[i].ports|
      ensures PathRefsOK(pathStore + [o], store[i].ports[q].paths)
    {
      assert PathRefsOK(pathStore, store[i].ports[q].paths);
    }
  }

  /**
   * The port under `p`: the first node whose footprint covers `p`, then the first of its
   * ports that sits at `p`.
   */
  function PortUnderCursor(store: seq<Node>, nodes: seq<nat>, p: Pos): (r: Option<PortRef>)
    requires IdsIn(store, nodes)
    ensures r.Some? ==> RefOK(store, r.value) && PortPos(store, r.value) == p && r.value.node in nodes
    ensures r.None? <==> (FindNode(store, nodes, p).None? ||
                          forall q :: 0 <= q < |store[nodes[FindNode(store, nodes, p).value]].ports| ==>
                            PortPos(store, PortRef(nodes[FindNode(store, nodes, p).value], q)) != p)
  {
    match FindNode(store, nodes, p)
    case None => None
    case Some(k) =>
      var n := store[nodes[k]];
      match PortUnder(n.pos, n.ports, p)
      case None => None
      case Some(q) => Some(PortRef(nodes[k], q))
  }

  /** The store invariants that the state object keeps about its nodes. */
  predicate Wired(width: int, height: int, store: seq<Node>, pathStore: seq<PathObj>)
  {
    StoreOK(store) && PortPathsOK(store, pathStore) && AllFit(width, height, store)
  }

  /** Nodes that only differ in their ports stay where they were. */
  lemma FitSameNodes(width: int, height: int, store: seq<Node>, s: seq<Node>)
    requires AllFit(width, height, store) && SameNodes(store, s)
    ensures AllFit(width, height, s)
  {
    forall i | 0 <= i < |s| ensures Fits(width, height, s[i]) {
      assert s[i] == store[i].(ports := s[i].ports);
    }
  }

  /** Replacing a port by one that keeps some of its connections and paths keeps the store wired. */
  lemma ShrinkWired(width: int, height: int, store: seq<Node>, pathStore: seq<PathObj>, r: PortRef, p: Port)
    requires Wired(width, height, store, pathStore) && RefOK(store, r)
    requires p.name == PortOf(store, r).name && p.offset == PortOf(store, r).offset && p.dir == PortOf(store, r).dir
    requires forall c :: c in p.connections ==> c in PortOf(store, r).connections
    requires forall t :: 0 <= t < |p.paths| ==> p.paths[t] in PortOf(store, r).paths
    ensures Wired(width, height, SetPort(store, r, p), pathStore)
  {
    ShrinkOK(store, pathStore, r, p);
    SetPortEffect(store, r, p);
    FitSameNodes(width, height, store, SetPort(store, r, p));
  }

  lemma InRemoveFirst<T>(s: seq<T>, x: T, y: T)
    requires y in Lists.RemoveFirst(s, x)
    ensures y in s
  {
    Lists.RemoveFirstCount(s, x);
    assert multiset(Lists.RemoveFirst(s, x))[y] > 0;
  }

  lemma InRemoveAt<T>(s: seq<T>, i: nat, y: T)
    requires i < |s| && y in Lists.RemoveAt(s, i)
    ensures y in s
  {
    Lists.RemoveAtCount(s, i);
    assert multiset(Lists.RemoveAt(s, i))[y] > 0;
  }

  /** Removing one of a port's connections keeps the store wired. */
  lemma DetachWired(width: int, height: int, store: seq<Node>, pathStore: seq<PathObj>, r: PortRef, b: PortRef)
    requires Wired(width, height, store, pathStore) && RefOK(store, r)
    ensures Wired(width, height, Detach(store, r, b), pathStore)
  {
    var p := PortOf(store, r);
    forall c | c in Lists.RemoveFirst(p.connections, b) ensures c in p.connections {
      InRemoveFirst(p.connections, b, c);
    }
    ShrinkWired(width, height, store, pathStore, r, p.(connections := Lists.RemoveFirst(p.connections, b)));
  }

  /** Removing one of a port's paths keeps the store wired. */
  lemma DropPathWired(width: int, height: int, store: seq<Node>, pathStore: seq<PathObj>, r: PortRef, path: PathRef)
    requires Wired(width, height, store, pathStore) && RefOK(store, r)
    ensures Wired(width, height, DropPath(store, r, path), pathStore)
  {
    var p := PortOf(store, r);
    forall t | 0 <= t < |Lists.RemoveFirst(p.paths, path)| ensures Lists.RemoveFirst(p.paths, path)[t] in p.paths {
      InRemoveFirst(p.paths, path, Lists.RemoveFirst(p.paths, path)[t]);
    }
    ShrinkWired(width, height, store, pathStore, r, p.(paths := Lists.RemoveFirst(p.paths, path)));
  }

  /** Removing the path at a given index of a port's list keeps the store wired. */
  lemma DropPathAtWired(width: int, height: int, store: seq<Node>, pathStore: seq<PathObj>, r: PortRef, i: nat)
    requires Wired(width, height, store, pathStore) && RefOK(store, r) && i < |PortOf(store, r).paths|
    ensures Wired(width, height, DropPathAt(store, r, i), pathStore)
  {
    var p := PortOf(store, r);
    ShrinkWired(width, height, store, pathStore, r, p.(paths := Lists.RemoveAt(p.paths, i)));
  }

  /** Removing the connection at a given index of a port's list keeps the store wired. */
  lemma DropLinkWired(width: int, height: int, store: seq<Node>, pathStore: seq<PathObj>, r: PortRef, i: nat)
    requires Wired(width, height, store, pathStore) && RefOK(store, r) && i < |PortOf(store, r).connections|
    ensures Wired(width, height, SetPort(store, r, PortOf(store, r).(connections := Lists.RemoveAt(PortOf(store, r).connections, i))), pathStore)
  {
    var p := PortOf(store, r);
    forall c | c in Lists.RemoveAt(p.connections, i) ensures c in p.connections {
      InRemoveAt(p.connections, i, c);
    }
    ShrinkWired(width, height, store, pathStore, r, p.(connections := Lists.RemoveAt(p.connections, i)));
  }

  /** A new connection keeps the store wired. */
  lemma ConnectWired(width: int, height: int, store: seq<Node>, pathStore: seq<PathObj>, a: PortRef, b: PortRef, path: PathRef)
    requires Wired(width, height, store, pathStore) && RefOK(store, a) && RefOK(store, b) && PathRefOK(pathStore, path)
    ensures Wired(width, height, Wiring.Connect(store, a, b, path), pathStore)
    ensures SameNodes(store, Wiring.Connect(store, a, b, path))
  {
    ConnectOK(store, pathStore, a, b, path);
    var pa := PortOf(store, a);
    SetPortEffect(store, a, pa.(connections := pa.connections + [b], paths := pa.paths + [path]));
    var s1 := Attach(store, a, b, path);
    var pb := PortOf(s1, b);
    SetPortEffect(s1, b, pb.(connections := pb.connections + [a], paths := pb.paths + [path]));
    SameNodesTrans(store, s1, Wiring.Connect(store, a, b, path));
    FitSameNodes(width, height, store, Wiring.Connect(store, a, b, path));
  }

  /** Cutting a deleted node's first back-link keeps the store wired. */
  lemma CutWired(width: int, height: int, store: seq<Node>, pathStore: seq<PathObj>, id: nat, ports: seq<Port>)
    requires Wired(width, height, store, pathStore) && PortsOK(store, ports)
    ensures Wired(width, height, CutBackLink(store, id, ports), pathStore)
    ensures SameNodes(store, CutBackLink(store, id, ports))
  {
    match BackLinkFrom(store, id, ports, 0, 0)
    case None =>
    case Some(link) =>
      DropLinkWired(width, height, store, pathStore, link.0, link.1);
      var p := PortOf(store, link.0);
      SetPortEffect(store, link.0, p.(connections := Lists.RemoveAt(p.connections, link.1)));
  }

  /** Dropping entry `k` of a duplicate-free id list keeps it duplicate free and drops that id. */
  lemma RemoveIdAt(store: seq<Node>, ids: seq<nat>, k: nat)
    requires k < |ids| && NoDupIds(ids) && IdsIn(store, ids)
    ensures NoDupIds(Lists.RemoveAt(ids, k)) && ids[k] !in Lists.RemoveAt(ids, k)
    ensures IdsIn(store, Lists.RemoveAt(ids, k))
  {
    var r := Lists.RemoveAt(ids, k);
    forall a, b | 0 <= a < b < |r| ensures r[a] != r[b] {
      var a' := if a < k then a else a + 1;
      var b' := if b < k then b else b + 1;
      assert r[a] == ids[a'] && r[b] == ids[b'] && a' < b';
    }
    forall t | 0 <= t < |r| ensures r[t] != ids[k] && r[t] < |store| {
      assert r[t] == ids[if t < k then t else t + 1];
    }
  }

  /** References kept from a valid list stay valid. */
  lemma RefsKept(pathStore: seq<PathObj>, rs: seq<PathRef>, rs': seq<PathRef>)
    requires PathRefsOK(pathStore, rs) && multiset(rs') <= multiset(rs)
    ensures PathRefsOK(pathStore, rs')
  {
    forall t | 0 <= t < |rs'| ensures PathRefOK(pathStore, rs'[t]) {
      assert multiset(rs)[rs'[t]] > 0;
      var u :| 0 <= u < |rs| && rs[u] == rs'[t];
    }
  }

  /** Changing only outputs keeps a store wired. */
  lemma SameButOutsWired(width: int, height: int, store: seq<Node>, store': seq<Node>, pathStore: seq<PathObj>)
    requires Wired(width, height, store, pathStore) && SameButOuts(store, store') && StoreOK(store')
    ensures Wired(width, height, store', pathStore)
  {
    forall i | 0 <= i < |store'| ensures Fits(width, height, store'[i]) && store'[i].ports == store[i].ports {
      assert store'[i] == store[i].(out := store'[i].out);
    }
  }

  /**
   * The lists after node `nodes[k]` is deleted: it leaves the node list, each of its
   * ports' path references removes the first equal entry of the path list, and the first
   * back-link found, if any (`cut`), is spliced out of its port's connection list.
   */
  ghost predicate Unplugged(store: seq<Node>, nodes: seq<nat>, paths: seq<PathRef>, k: nat,
                            store': seq<Node>, nodes': seq<nat>, paths': seq<PathRef>, cut: bool)
    requires StoreOK(store) && IdsIn(store, nodes) && k < |nodes|
  {
    var id := nodes[k];
    var n := store[id];
    && nodes' == Lists.RemoveAt(nodes, k) && id !in nodes'
    && paths' == Lists.RemoveEach(paths, AllPaths(n.ports))
    && store' == CutBackLink(store, id, n.ports)
    && (cut <==> BackLinkFrom(store, id, n.ports, 0, 0).Some?)
  }

  /** The list updates of a deletion, with the invariants they keep. */
  method Unplug(width: int, height: int, store: seq<Node>, pathStore: seq<PathObj>, nodes: seq<nat>, paths: seq<PathRef>, k: nat)
    returns (store': seq<Node>, nodes': seq<nat>, paths': seq<PathRef>, cut: bool)
    requires Wired(width, height, store, pathStore) && IdsIn(store, nodes) && NoDupIds(nodes) && k < |nodes|
    requires PathRefsOK(pathStore, paths)
    ensures Unplugged(store, nodes, paths, k, store', nodes', paths', cut)
    ensures Wired(width, height, store', pathStore) && |store'| == |store| && forall c :: RefOK(store', c) <==> RefOK(store, c)
    ensures IdsIn(store', nodes') && NoDupIds(nodes') && PathRefsOK(pathStore, paths')
    ensures SameNodes(store, store')
  {
    var id := nodes[k];
    var n := store[id];
    assert WellFormed(n) && PortsOK(store, n.ports);
    var index := Lists.IndexOf(nodes, id);
    assert index == k;
    RemoveIdAt(store, nodes, index);
    nodes' := Lists.RemoveAt(nodes, index);
    paths' := DropPaths(paths, n.ports);
    Lists.RemoveEachCount(paths, AllPaths(n.ports));
    RefsKept(pathStore, paths, paths');
    CutWired(width, height, store, pathStore, id, n.ports);
    store', cut := RemoveBackLink(store, id, n.ports);
    assert Unplugged(store, nodes, paths, k, store', nodes', paths', cut);
    assert Wired(width, height, store', pathStore) && |store'| == |store| && forall c :: RefOK(store', c) <==> RefOK(store, c);
    assert IdsIn(store', nodes') && NoDupIds(nodes') && PathRefsOK(pathStore, paths');
  }

  /**
   * What the session's lists keep between commands: every node well formed and on the
   * grid, every connection and path reference naming an existing port or path object,
   * the node list without repeats, and the cursor on the grid.
   */
  ghost predicate Inv(width: int, height: int, store: seq<Node>, pathStore: seq<PathObj>, nodes: seq<nat>, nextSet: seq<nat>,
                      paths: seq<PathRef>, currPath: PathRef, selectedPort: Option<PortRef>, cursor: Pos, state: State)
  {
    && StoreOK(store) && PortPathsOK(store, pathStore) && RoutesOK(pathStore)
    && AllFit(width, height, store)
    && IdsIn(store, nodes) && NoDupIds(nodes) && IdsIn(store, nextSet) && NoDupIds(nextSet)
    && PathRefsOK(pathStore, paths) && PathRefOK(pathStore, currPath)
    && (selectedPort.Some? ==> RefOK(store, selectedPort.value))
    && OnGrid(width, height, cursor)
    && (state == Place ==> |nodes| > 0)
  }

  /**
   * A search result appended to the path arena becomes the draft: the invariant holds,
   * whether the selection stays or is dropped on the way to another mode.
   */
  lemma NewPathInv(width: int, height: int, store: seq<Node>, pathStore: seq<PathObj>, nodes: seq<nat>, nextSet: seq<nat>,
                   paths: seq<PathRef>, currPath: PathRef, selectedPort: Option<PortRef>, cursor: Pos, state: State,
                   o: PathObj, sel: Option<PortRef>, st: State)
    requires Inv(width, height, store, pathStore, nodes, nextSet, paths, currPath, selectedPort, cursor, state)
    requires o.Route? ==> |o.positions| > 0
    requires sel == selectedPort || sel.None?
    requires st == state || st != Place
    ensures Inv(width, height, store, pathStore + [o], nodes, nextSet, paths, PathObj(|pathStore|), sel, cursor, st)
  {
    PathStoreGrows(store, pathStore, o);
    var ps := pathStore + [o];
    assert forall t :: 0 <= t < |paths| ==> PathRefOK(pathStore, paths[t]);
    assert forall i :: 0 <= i < |pathStore| ==> ps[i] == pathStore[i];
  }

  /**
   * The invariant over new port lists, a new path list, draft and selection: it holds when
   * the store stays wired with the same ports, and the new references are valid.
   */
  lemma RewiredInv(width: int, height: int, store: seq<Node>, pathStore: seq<PathObj>, nodes: seq<nat>, nextSet: seq<nat>,
                   paths: seq<PathRef>, currPath: PathRef, selectedPort: Option<PortRef>, cursor: Pos, state: State,
                   store': seq<Node>, paths': seq<PathRef>, currPath': PathRef, selectedPort': Option<PortRef>)
    requires Inv(width, height, store, pathStore, nodes, nextSet, paths, currPath, selectedPort, cursor, state)
    requires Wired(width, height, store', pathStore) && |store'| == |store|
    requires PathRefsOK(pathStore, paths') && PathRefOK(pathStore, currPath')
    requires selectedPort'.Some? ==> RefOK(store', selectedPort'.value)
    ensures Inv(width, height, store', pathStore, nodes, nextSet, paths', currPath', selectedPort', cursor, state)
  {
  }

  /** The invariant survives an evaluation step: new outputs and a new worklist. */
  lemma EvaluatedInv(width: int, height: int, store: seq<Node>, pathStore: seq<PathObj>, nodes: seq<nat>, nextSet: seq<nat>,
                     paths: seq<PathRef>, currPath: PathRef, selectedPort: Option<PortRef>, cursor: Pos, state: State,
                     store': seq<Node>, next: seq<nat>)
    requires Inv(width, height, store, pathStore, nodes, nextSet, paths, currPath, selectedPort, cursor, state)
    requires Wired(width, height, store', pathStore) && SameButOuts(store, store')
    requires IdsIn(store', next) && NoDupIds(next)
    ensures Inv(width, height, store', pathStore, nodes, next, paths, currPath, selectedPort, cursor, state)
  {
  }

  /** The invariant survives the list updates of a deletion. */
  lemma DeletedInv(width: int, height: int, store: seq<Node>, pathStore: seq<PathObj>, nodes: seq<nat>, nextSet: seq<nat>,
                   paths: seq<PathRef>, currPath: PathRef, selectedPort: Option<PortRef>, cursor: Pos, state: State,
                   store': seq<Node>, nodes': seq<nat>, paths': seq<PathRef>)
    requires Inv(width, height, store, pathStore, nodes, nextSet, paths, currPath, selectedPort, cursor, state)
    requires state != Place
    requires Wired(width, height, store', pathStore) && |store'| == |store| && forall c :: RefOK(store', c) <==> RefOK(store, c)
    requires IdsIn(store', nodes') && NoDupIds(nodes') && PathRefsOK(pathStore, paths')
    ensures Inv(width, height, store', pathStore, nodes', nextSet, paths', currPath, selectedPort, cursor, state)
  {
  }

  /** The invariant survives replacing a node by a well-formed one of the same place, size and ports. */
  lemma ReplacedInv(width: int, height: int, store: seq<Node>, pathStore: seq<PathObj>, nodes: seq<nat>, nextSet: seq<nat>,
                    paths: seq<PathRef>, currPath: PathRef, selectedPort: Option<PortRef>, cursor: Pos, state: State,
                    id: nat, n: Node)
    requires Inv(width, height, store, pathStore, nodes, nextSet, paths, currPath, selectedPort, cursor, state)
    requires id < |store| && WellFormed(n) && n.ports == store[id].ports && Fits(width, height, n)
    ensures Inv(width, height, store[id := n], pathStore, nodes, nextSet, paths, currPath, selectedPort, cursor, state)
  {
    ReplaceNodeOK(store, pathStore, id, n);
    RewiredInv(width, height, store, pathStore, nodes, nextSet, paths, currPath, selectedPort, cursor, state,
               store[id := n], paths, currPath, selectedPort);
  }

  /** The disconnect's changes to the two ports, by the outcome of the path scan. */
  function Unlinked(store: seq<Node>, sel: PortRef, c: PortRef, scan: Scan): seq<Node>
    requires RefOK(store, sel) && RefOK(store, c)
    requires scan.Found? ==> scan.i < |PortOf(store, sel).paths|
  {
    match scan
    case Broken => Detach(store, sel, c)
    case Missing => Detach(Detach(store, sel, c), c, sel)
    case Found(i) => Unlink(store, sel, c, i)
  }

  /**
   * The disconnect of two linked ports: `sel` drops its first connection to `c`, then the
   * scan of `sel`'s paths looks for the one joining the two ports; a found path leaves
   * `sel`'s list, and then `c` drops its first connection to `sel` and the found path.
   * An unreadable entry met by the scan stops everything after the first step.
   */
  method Disconnect(width: int, height: int, store: seq<Node>, pathStore: seq<PathObj>, sel: PortRef, c: PortRef)
    returns (store': seq<Node>, scan: Scan)
    requires Wired(width, height, store, pathStore) && RoutesOK(pathStore) && RefOK(store, sel) && RefOK(store, c)
    ensures scan == ScanFrom(pathStore, PortOf(store, sel).paths, 0, PortPos(store, sel), PortPos(store, c))
    ensures store' == Unlinked(store, sel, c, scan)
    ensures Wired(width, height, store', pathStore) && |store'| == |store| && forall r :: RefOK(store', r) <==> RefOK(store, r)
  {
    var from, to := PortPos(store, sel), PortPos(store, c);
    DetachWired(width, height, store, pathStore, sel, c);
    store' := Detach(store, sel, c);
    SetPortEffect(store, sel, PortOf(store, sel).(connections := Lists.RemoveFirst(PortOf(store, sel).connections, c)));
    assert PortOf(store', sel).paths == PortOf(store, sel).paths;
    scan := FindPath(pathStore, PortOf(store', sel).paths, from, to);
    if scan.Broken? {
      return;
    }
    var toRemove := NullPath;
    if scan.Found? {
      UnlinkInSteps(store, sel, c, scan.i);
      toRemove := PortOf(store', sel).paths[scan.i];
      DropPathAtWired(width, height, store', pathStore, sel, scan.i);
      store' := DropPathAt(store', sel, scan.i);
    }
    DetachWired(width, height, store', pathStore, c, sel);
    store' := Detach(store', c, sel);
    if scan.Found? {
      DropPathWired(width, height, store', pathStore, c, toRemove);
      store' := DropPath(store', c, toRemove);
    }
  }

  /**
   * The lists after the disconnect branch of a port selection, from `store`, `paths` and
   * draft `currPath` with `sel` selected: the ports change as `Unlinked` says for the scan
   * of `sel`'s paths. A found path also removes the first entry of the path list when it
   * is listed there at all, and drops the selection and the draft; otherwise the command
   * faults (an unreadable entry) or reports the missing path, keeping both.
   */
  ghost predicate Parted(pathStore: seq<PathObj>, store: seq<Node>, paths: seq<PathRef>, currPath: PathRef, sel: PortRef, c: PortRef,
                         store': seq<Node>, paths': seq<PathRef>, currPath': PathRef, selected': Option<PortRef>, o: Outcome)
    requires RoutesOK(pathStore) && RefOK(store, sel) && RefOK(store, c)
  {
    var scan := ScanFrom(pathStore, PortOf(store, sel).paths, 0, PortPos(store, sel), PortPos(store, c));
    && store' == Unlinked(store, sel, c, scan)
    && o == (if scan.Found? then Done else if scan.Broken? then Fault else Failed(NoPathToRemove))
    && selected' == (if scan.Found? then None else Some(sel))
    && currPath' == (if scan.Found? then NullPath else currPath)
    && paths' == (if scan.Found? && PortOf(store, sel).paths[scan.i] in paths then paths[1..] else paths)
  }

  /** The disconnect branch on the lists, with the invariant it keeps. */
  method Part(width: int, height: int, store: seq<Node>, pathStore: seq<PathObj>, nodes: seq<nat>, nextSet: seq<nat>,
              paths: seq<PathRef>, currPath: PathRef, cursor: Pos, state: State, sel: PortRef, c: PortRef)
    returns (store': seq<Node>, paths': seq<PathRef>, currPath': PathRef, selected': Option<PortRef>, o: Outcome)
    requires Inv(width, height, store, pathStore, nodes, nextSet, paths, currPath, Some(sel), cursor, state) && RefOK(store, c)
    ensures Parted(pathStore, store, paths, currPath, sel, c, store', paths', currPath', selected', o)
    ensures Inv(width, height, store', pathStore, nodes, nextSet, paths', currPath', selected', cursor, state)
  {
    var scan;
    store', scan := Disconnect(width, height, store, pathStore, sel, c);
    // only a found path drops the selection and the draft; `splice` given the path object
    // itself as its start index removes the first entry of the path list
    var found := scan.Found?;
    paths' := if found && PortOf(store, sel).paths[scan.i] in paths then paths[1..] else paths;
    selected', currPath' := if found then None else Some(sel), if found then NullPath else currPath;
    assert forall t :: 0 <= t < |paths'| ==> PathRefOK(pathStore, paths'[t]) by {
      assert forall t :: 0 <= t < |paths'| ==> paths'[t] in paths;
    }
    RewiredInv(width, height, store, pathStore, nodes, nextSet, paths, currPath, Some(sel), cursor, state,
               store', paths', currPath', selected');
    o := if found then Done else if scan.Broken? then Fault else Failed(NoPathToRemove);
  }

  /** Disconnecting two ports changes only port lists. */
  lemma UnlinkedSameNodes(store: seq<Node>, sel: PortRef, c: PortRef, scan: Scan)
    requires RefOK(store, sel) && RefOK(store, c)
    requires scan.Found? ==> scan.i < |PortOf(store, sel).paths|
    ensures SameNodes(store, Unlinked(store, sel, c, scan))
  {
    var ps := PortOf(store, sel);
    match scan
    case Broken =>
      SetPortEffect(store, sel, ps.(connections := Lists.RemoveFirst(ps.connections, c)));
    case Missing =>
      var s1 := Detach(store, sel, c);
      SetPortEffect(store, sel, ps.(connections := Lists.RemoveFirst(ps.connections, c)));
      var pc := PortOf(s1, c);
      SetPortEffect(s1, c, pc.(connections := Lists.RemoveFirst(pc.connections, sel)));
      SameNodesTrans(store, s1, Unlinked(store, sel, c, scan));
    case Found(i) =>
      var s1 := SetPort(store, sel, ps.(connections := Lists.RemoveFirst(ps.connections, c), paths := Lists.RemoveAt(ps.paths, i)));
      SetPortEffect(store, sel, ps.(connections := Lists.RemoveFirst(ps.connections, c), paths := Lists.RemoveAt(ps.paths, i)));
      var pc := PortOf(s1, c);
      SetPortEffect(s1, c, pc.(connections := Lists.RemoveFirst(pc.connections, sel), paths := Lists.RemoveFirst(pc.paths, ps.paths[i])));
      SameNodesTrans(store, s1, Unlinked(store, sel, c, scan));
  }

  /** How many entries of the node list are placed: all but the last one while it is being placed. */
  function Placed(nodes: seq<nat>, state: State): nat
  {
    if state == Place && |nodes| > 0 then |nodes| - 1 else |nodes|
  }

  /** The footprints of `m` and `n` lie apart: one is wholly left of, right of, above or below the other. */
  predicate Apart(m: Node, n: Node)
  {
    || m.pos.x + m.width <= n.pos.x || n.pos.x + n.width <= m.pos.x
    || m.pos.y + m.height <= n.pos.y || n.pos.y + n.height <= m.pos.y
  }

  /** Non-empty footprints lie apart exactly when no point is covered by both. */
  lemma ApartExact(m: Node, n: Node)
    requires m.width > 0 && m.height > 0 && n.width > 0 && n.height > 0
    ensures Apart(m, n) <==> forall p :: !(Covers(m, p) && Covers(n, p))
  {
    var p := Pos(if m.pos.x < n.pos.x then n.pos.x else m.pos.x, if m.pos.y < n.pos.y then n.pos.y else m.pos.y);
    assert !Apart(m, n) ==> Covers(m, p) && Covers(n, p);
  }

  /** The grid shows `n`'s shape over the part of its footprint that lies on the grid. */
  ghost predicate Shows(chars: array2<Cell>, n: Node)
    reads chars
  {
    && ShapeFits(n.shape, n.width, n.height)
    && forall y, x :: 0 <= y < chars.Length0 && 0 <= x < chars.Length1 && Covers(n, Pos(x, y)) ==>
         chars[y, x] == n.shape[y - n.pos.y][x - n.pos.x]
  }

  /** Every cell of `n`'s footprint on the grid is empty. */
  ghost predicate Vacant(chars: array2<Cell>, n: Node)
    reads chars
  {
    forall y, x :: 0 <= y < chars.Length0 && 0 <= x < chars.Length1 && Covers(n, Pos(x, y)) ==> chars[y, x] == Empty
  }

  /**
   * The placement invariant: the grid shows each of the first `n` nodes of `ids`, and no
   * two of them overlap.
   */
  ghost predicate Drawn(chars: array2<Cell>, store: seq<Node>, ids: seq<nat>, n: nat)
    reads chars
  {
    && IdsIn(store, ids) && n <= |ids|
    && (forall t {:trigger Shows(chars, store[ids[t]])} :: 0 <= t < n ==> Shows(chars, store[ids[t]]))
    && Disjoint(store, ids, n)
  }

  /** No two of the first `n` nodes of `ids` overlap. */
  predicate Disjoint(store: seq<Node>, ids: seq<nat>, n: nat)
    requires IdsIn(store, ids) && n <= |ids|
  {
    forall t, u {:trigger Apart(store[ids[t]], store[ids[u]])} :: 0 <= t < u < n ==> Apart(store[ids[t]], store[ids[u]])
  }

  /** Two different entries among the first `n` of a disjoint list lie apart, in either order. */
  lemma ApartAt(store: seq<Node>, ids: seq<nat>, n: nat, t: nat, u: nat)
    requires IdsIn(store, ids) && n <= |ids| && Disjoint(store, ids, n) && t < n && u < n && t != u
    ensures Apart(store[ids[t]], store[ids[u]])
  {
    if u < t {
      assert Apart(store[ids[u]], store[ids[t]]);
    }
  }

  /** Nodes at the same place with the same size and shape look the same on the grid. */
  predicate SameLook(m: Node, n: Node)
  {
    SamePlace(m, n) && m.shape == n.shape
  }

  /** Nodes at the same place with the same size. */
  predicate SamePlace(m: Node, n: Node)
  {
    m.pos == n.pos && m.width == n.width && m.height == n.height
  }

  /**
   * The overlap test is sound: a well-formed node showing on the grid lies apart from
   * any footprint that fits the grid and whose every cell is empty.
   */
  lemma VacantApart(chars: array2<Cell>, m: Node, n: Node)
    requires WellFormed(m) && Shows(chars, m)
    requires WellFormed(n) && Fits(chars.Length1, chars.Length0, n) && Vacant(chars, n)
    ensures Apart(m, n)
  {
    var p := Pos(if m.pos.x < n.pos.x then n.pos.x else m.pos.x, if m.pos.y < n.pos.y then n.pos.y else m.pos.y);
    assert m.width > 0 && m.height > 0 && n.width > 0 && n.height > 0;
    assert !Apart(m, n) ==> Covers(m, p) && Covers(n, p);
    assert Covers(m, p) && Covers(n, p) ==>
             InGrid(chars, p) && chars[p.y, p.x] == Empty && Filled(m.shape[p.y - m.pos.y][p.x - m.pos.x]);
  }

  /** A node whose footprint passes the overlap test lies apart from every drawn node. */
  lemma FreeApart(chars: array2<Cell>, store: seq<Node>, ids: seq<nat>, n: nat, id: nat)
    requires StoreOK(store) && Drawn(chars, store, ids, n) && id < |store|
    requires Fits(chars.Length1, chars.Length0, store[id]) && Vacant(chars, store[id])
    ensures forall t :: 0 <= t < n ==> Apart(store[ids[t]], store[id])
  {
    forall t | 0 <= t < n ensures Apart(store[ids[t]], store[id]) {
      VacantApart(chars, store[ids[t]], store[id]);
    }
  }

  /** The node being placed is not among the placed nodes. */
  lemma LastNotPlaced(nodes: seq<nat>)
    requires NoDupIds(nodes) && |nodes| > 0
    ensures forall t :: 0 <= t < |nodes| - 1 ==> nodes[t] != nodes[|nodes| - 1]
  {
  }

  /** No point of a node's footprint lies in the footprint of a node apart from it. */
  lemma Untouched(m: Node, n: Node)
    requires Apart(m, n)
    ensures forall p :: Covers(m, p) ==> !Covers(n, p)
  {
  }

  /** A node written onto a vacant footprint joins the drawn nodes: entry `n` of `ids`. */
  lemma DrawnExtend(chars: array2<Cell>, store: seq<Node>, ids: seq<nat>, n: nat)
    requires Drawn(chars, store, ids, n) && n < |ids| && Shows(chars, store[ids[n]])
    requires forall t :: 0 <= t < n ==> Apart(store[ids[t]], store[ids[n]])
    ensures Drawn(chars, store, ids, n + 1)
  {
    forall t, u | 0 <= t < u < n + 1 ensures Apart(store[ids[t]], store[ids[u]]) {
      if u < n {
        assert Apart(store[ids[t]], store[ids[u]]);
      }
    }
  }

  /** Dropping one node keeps the others drawn, and each of them lies apart from it. */
  lemma DrawnRemoveAt(chars: array2<Cell>, store: seq<Node>, ids: seq<nat>, k: nat)
    requires Drawn(chars, store, ids, |ids|) && k < |ids|
    ensures Drawn(chars, store, Lists.RemoveAt(ids, k), |ids| - 1)
    ensures forall t :: 0 <= t < |ids| - 1 ==> Apart(store[Lists.RemoveAt(ids, k)[t]], store[ids[k]])
  {
    var r := Lists.RemoveAt(ids, k);
    Lists.RemoveAtIndex(ids, k);
    forall t | 0 <= t < |r| ensures Shows(chars, store[r[t]]) && Apart(store[r[t]], store[ids[k]]) {
      var t' := if t < k then t else t + 1;
      assert r[t] == ids[t'] && Shows(chars, store[ids[t']]);
      ApartAt(store, ids, |ids|, t', k);
    }
    forall t, u | 0 <= t < u < |r| ensures Apart(store[r[t]], store[r[u]]) {
      var t', u' := if t < k then t else t + 1, if u < k then u else u + 1;
      assert r[t] == ids[t'] && r[u] == ids[u'] && Apart(store[ids[t']], store[ids[u']]);
    }
  }

  /** Nodes that keep their look stay drawn. */
  lemma DrawnKept(chars: array2<Cell>, store: seq<Node>, store': seq<Node>, ids: seq<nat>, n: nat)
    requires Drawn(chars, store, ids, n) && IdsIn(store', ids)
    requires forall t :: 0 <= t < n ==> SameLook(store'[ids[t]], store[ids[t]])
    ensures Drawn(chars, store', ids, n)
  {
    forall t | 0 <= t < n ensures Shows(chars, store'[ids[t]]) {
      assert Shows(chars, store[ids[t]]);
    }
    DisjointKept(store, store', ids, n);
  }

  /** The point at the centre of `n`'s footprint, where its name glyph sits. */
  function Centre(n: Node): (p: Pos)
    ensures n.width > 0 && n.height > 0 ==> Covers(n, p)
  {
    Pos(n.pos.x + n.width / 2, n.pos.y + n.height / 2)
  }

  /**
   * A node shows renamed when the grid holds its shape everywhere but at the centre of
   * its footprint, and the name's first character there.
   */
  lemma RenamedShows(chars: array2<Cell>, n: Node, name: string)
    requires 0 < n.width && 0 < n.height && ShapeFits(n.shape, n.width, n.height) && |name| > 0
    requires Fits(chars.Length1, chars.Length0, n)
    requires forall y, x :: 0 <= y < chars.Length0 && 0 <= x < chars.Length1 && Covers(n, Pos(x, y)) && Pos(x, y) != Centre(n) ==>
               chars[y, x] == n.shape[y - n.pos.y][x - n.pos.x]
    requires chars[Centre(n).y, Centre(n).x] == CharCell(name[0])
    ensures Shows(chars, SetName(n, name))
  {
    var n', c := SetName(n, name), Centre(n);
    assert n'.pos == n.pos && SamePlace(n', n) && ShapeFits(n'.shape, n'.width, n'.height);
    forall y, x | 0 <= y < chars.Length0 && 0 <= x < chars.Length1 && Covers(n', Pos(x, y))
      ensures chars[y, x] == n'.shape[y - n'.pos.y][x - n'.pos.x]
    {
      var j, i := y - n.pos.y, x - n.pos.x;
      assert n'.shape[j][i] == if (i, j) == (n.width / 2, n.height / 2) then CharCell(name[0]) else n.shape[j][i];
    }
    assert Shows(chars, n');
  }

  /**
   * Putting back entry `k` of a disjoint list, as a node `n` that shows on the grid in the
   * place of the old one, while the other entries stay drawn, makes the whole list drawn.
   */
  lemma DrawnRestored(chars: array2<Cell>, store: seq<Node>, ids: seq<nat>, k: nat, n: Node)
    requires IdsIn(store, ids) && NoDupIds(ids) && Disjoint(store, ids, |ids|) && k < |ids|
    requires Drawn(chars, store, Lists.RemoveAt(ids, k), |ids| - 1)
    requires Shows(chars, n) && SamePlace(n, store[ids[k]])
    ensures Drawn(chars, store[ids[k] := n], ids, |ids|)
  {
    var s' := store[ids[k] := n];
    var r := Lists.RemoveAt(ids, k);
    Lists.RemoveAtIndex(ids, k);
    forall t | 0 <= t < |ids| ensures Shows(chars, s'[ids[t]]) {
      if t < k {
        assert ids[t] == r[t] && ids[t] != ids[k] && Shows(chars, store[r[t]]);
      } else if t > k {
        assert ids[t] == r[t - 1] && ids[t] != ids[k] && Shows(chars, store[r[t - 1]]);
      }
    }
    DisjointKept(store, s', ids, |ids|);
  }

  /** Nodes that keep their place and size stay disjoint. */
  lemma DisjointKept(store: seq<Node>, store': seq<Node>, ids: seq<nat>, n: nat)
    requires IdsIn(store, ids) && n <= |ids| && Disjoint(store, ids, n) && IdsIn(store', ids)
    requires forall t :: 0 <= t < n ==> SamePlace(store'[ids[t]], store[ids[t]])
    ensures Disjoint(store', ids, n)
  {
    forall t, u | 0 <= t < u < n ensures Apart(store'[ids[t]], store'[ids[u]]) {
      assert Apart(store[ids[t]], store[ids[u]]);
    }
  }
}
