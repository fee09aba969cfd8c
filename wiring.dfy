/**
 * Ports, connections and paths. A port is named by the node it belongs to and its place in
 * that node's port list; a path object is named by its index among all path objects ever
 * created, so that a path list can hold the same object twice, or `null`, as in the program.
 */
module Wiring {
  import opened Geometry
  import opened Catalog
  import opened Engine
  import opened Lists

  /** A path object: a route found by the search, or the empty array a failed search returns. */
  datatype PathObj = Route(positions: seq<Pos>) | NoRoute

  /** Every route has at least one position. */
  predicate RoutesOK(pathStore: seq<PathObj>)
  {
    forall i :: 0 <= i < |pathStore| && pathStore[i].Route? ==> |pathStore[i].positions| > 0
  }

  predicate PathRefOK(pathStore: seq<PathObj>, r: PathRef)
  {
    r.PathObj? ==> r.id < |pathStore|
  }

  predicate PathRefsOK(pathStore: seq<PathObj>, rs: seq<PathRef>)
  {
    forall t :: 0 <= t < |rs| ==> PathRefOK(pathStore, rs[t])
  }

  /** The path lists of all ports of all stored nodes refer to existing path objects. */
  predicate PortPathsOK(store: seq<Node>, pathStore: seq<PathObj>)
  {
    forall i, q :: 0 <= i < |store| && 0 <= q < |store[i].ports| ==> PathRefsOK(pathStore, store[i].ports[q].paths)
  }

  function PortOf(store: seq<Node>, r: PortRef): Port
    requires RefOK(store, r)
  {
    store[r.node].ports[r.index]
  }

  /** The grid position of a port: its node's position plus its offset. */
  function PortPos(store: seq<Node>, r: PortRef): Pos
    requires RefOK(store, r)
  {
    Site(store[r.node].pos, PortOf(store, r))
  }

  /** `store` with port `r` replaced by `p`. */
  function SetPort(store: seq<Node>, r: PortRef, p: Port): (s: seq<Node>)
    requires RefOK(store, r)
    ensures |s| == |store|
    ensures forall c :: RefOK(s, c) <==> RefOK(store, c)
  {
    store[r.node := store[r.node].(ports := store[r.node].ports[r.index := p])]
  }

  /** Replacing a port by one with the same name, offset and kind and valid references keeps the store valid. */
  lemma SetPortOK(store: seq<Node>, pathStore: seq<PathObj>, r: PortRef, p: Port)
    requires StoreOK(store) && PortPathsOK(store, pathStore) && RefOK(store, r)
    requires p.name == PortOf(store, r).name && p.offset == PortOf(store, r).offset && p.dir == PortOf(store, r).dir
    requires forall c :: c in p.connections ==> RefOK(store, c)
    requires PathRefsOK(pathStore, p.paths)
    ensures StoreOK(SetPort(store, r, p)) && PortPathsOK(SetPort(store, r, p), pathStore)
  {
    var s := SetPort(store, r, p);
    forall i | 0 <= i < |s| ensures WellFormed(s[i]) && PortsOK(s, s[i].ports) {
      assert WellFormed(store[i]) && PortsOK(store, store[i].ports);
      forall q, c | 0 <= q < |s[i].ports| && c in s[i].ports[q].connections ensures RefOK(s, c) {
        if i == r.node && q == r.index {
          assert s[i].ports[q] == p;
        } else {
          assert s[i].ports[q] == store[i].ports[q];
        }
      }
    }
    forall i, q | 0 <= i < |s| && 0 <= q < |s[i].ports| ensures PathRefsOK(pathStore, s[i].ports[q].paths) {
      if i == r.node && q == r.index {
        assert s[i].ports[q] == p;
      } else {
        assert s[i].ports[q] == store[i].ports[q];
      }
    }
  }

  /** `r`'s port with `b` appended to its connections and `path` to its paths. */
  function Attach(store: seq<Node>, r: PortRef, b: PortRef, path: PathRef): (s: seq<Node>)
    requires RefOK(store, r)
    ensures |s| == |store| && forall c :: RefOK(s, c) <==> RefOK(store, c)
  {
    var p := PortOf(store, r);
    SetPort(store, r, p.(connections := p.connections + [b], paths := p.paths + [path]))
  }

  /** A fresh connection: each port is appended to the other's connections, and `path` to both path lists. */
  function Connect(store: seq<Node>, a: PortRef, b: PortRef, path: PathRef): (s: seq<Node>)
    requires RefOK(store, a) && RefOK(store, b)
    ensures |s| == |store| && forall c :: RefOK(s, c) <==> RefOK(store, c)
  {
    Attach(Attach(store, a, b, path), b, a, path)
  }

  /**
   * After connecting two different ports, each lists the other as its last connection and
   * `path` as its last path, on top of what it had; every other port is as it was.
   */
  lemma ConnectEffect(store: seq<Node>, a: PortRef, b: PortRef, path: PathRef)
    requires RefOK(store, a) && RefOK(store, b) && a != b
    ensures PortOf(Connect(store, a, b, path), a).connections == PortOf(store, a).connections + [b]
    ensures PortOf(Connect(store, a, b, path), b).connections == PortOf(store, b).connections + [a]
    ensures PortOf(Connect(store, a, b, path), a).paths == PortOf(store, a).paths + [path]
    ensures PortOf(Connect(store, a, b, path), b).paths == PortOf(store, b).paths + [path]
    ensures forall c :: RefOK(store, c) && c != a && c != b ==> PortOf(Connect(store, a, b, path), c) == PortOf(store, c)
    ensures Linked(Connect(store, a, b, path), a, b)
  {
  }

  /** Connecting keeps the store valid. */
  lemma ConnectOK(store: seq<Node>, pathStore: seq<PathObj>, a: PortRef, b: PortRef, path: PathRef)
    requires StoreOK(store) && PortPathsOK(store, pathStore) && RefOK(store, a) && RefOK(store, b)
    requires PathRefOK(pathStore, path)
    ensures StoreOK(Connect(store, a, b, path)) && PortPathsOK(Connect(store, a, b, path), pathStore)
  {
    var pa := PortOf(store, a);
    assert WellFormed(store[a.node]) && PortsOK(store, store[a.node].ports);
    SetPortOK(store, pathStore, a, pa.(connections := pa.connections + [b], paths := pa.paths + [path]));
    var s1 := Attach(store, a, b, path);
    var pb := PortOf(s1, b);
    assert WellFormed(s1[b.node]) && PortsOK(s1, s1[b.node].ports);
    assert PathRefsOK(pathStore, s1[b.node].ports[b.index].paths);
    SetPortOK(s1, pathStore, b, pb.(connections := pb.connections + [a], paths := pb.paths + [path]));
  }

  /** Each of the two ports lists the other among its connections. */
  predicate Linked(store: seq<Node>, a: PortRef, b: PortRef)
  {
    RefOK(store, a) && RefOK(store, b) && b in PortOf(store, a).connections && a in PortOf(store, b).connections
  }

  /** `r`'s port without the first occurrence of `b` among its connections. */
  function Detach(store: seq<Node>, r: PortRef, b: PortRef): (s: seq<Node>)
    requires RefOK(store, r)
    ensures |s| == |store| && forall c :: RefOK(s, c) <==> RefOK(store, c)
  {
    var p := PortOf(store, r);
    SetPort(store, r, p.(connections := RemoveFirst(p.connections, b)))
  }

  /** `r`'s port without the path at position `i` of its path list. */
  function DropPathAt(store: seq<Node>, r: PortRef, i: nat): (s: seq<Node>)
    requires RefOK(store, r) && i < |PortOf(store, r).paths|
    ensures |s| == |store| && forall c :: RefOK(s, c) <==> RefOK(store, c)
  {
    var p := PortOf(store, r);
    SetPort(store, r, p.(paths := RemoveAt(p.paths, i)))
  }

  /** `r`'s port without the first occurrence of `path` in its path list. */
  function DropPath(store: seq<Node>, r: PortRef, path: PathRef): (s: seq<Node>)
    requires RefOK(store, r)
    ensures |s| == |store| && forall c :: RefOK(s, c) <==> RefOK(store, c)
  {
    var p := PortOf(store, r);
    SetPort(store, r, p.(paths := RemoveFirst(p.paths, path)))
  }

  /** Removing a connection or a path from a port keeps the store valid. */
  lemma ShrinkOK(store: seq<Node>, pathStore: seq<PathObj>, r: PortRef, p: Port)
    requires StoreOK(store) && PortPathsOK(store, pathStore) && RefOK(store, r)
    requires p.name == PortOf(store, r).name && p.offset == PortOf(store, r).offset && p.dir == PortOf(store, r).dir
    requires forall c :: c in p.connections ==> c in PortOf(store, r).connections
    requires forall t :: 0 <= t < |p.paths| ==> p.paths[t] in PortOf(store, r).paths
    ensures StoreOK(SetPort(store, r, p)) && PortPathsOK(SetPort(store, r, p), pathStore)
  {
    assert WellFormed(store[r.node]) && PortsOK(store, store[r.node].ports);
    assert PathRefsOK(pathStore, store[r.node].ports[r.index].paths);
    SetPortOK(store, pathStore, r, p);
  }

  /**
   * The end test of the path scan: starting from the selected port's position `from`, the
   * path's last position names it and its first the current port `to`, or, when the last
   * position is not `from`, the other way round.
   */
  predicate EndsMatch(ps: seq<Pos>, from: Pos, to: Pos)
    requires |ps| > 0
  {
    if from == ps[|ps| - 1] then to == ps[0] else from == ps[0] && to == ps[|ps| - 1]
  }

  /** The test accepts exactly the paths between the two positions, in either direction. */
  lemma EndsMatchEitherWay(ps: seq<Pos>, from: Pos, to: Pos)
    requires |ps| > 0
    ensures EndsMatch(ps, from, to) <==>
              (ps[|ps| - 1] == from && ps[0] == to) || (ps[0] == from && ps[|ps| - 1] == to)
  {
  }

  /** The outcome of scanning a path list: a match at `i`, no match, or an entry without positions. */
  datatype Scan = Found(i: nat) | Missing | Broken

  /** An entry whose positions can be read: a reference to a route. */
  predicate Readable(pathStore: seq<PathObj>, r: PathRef)
  {
    r.PathObj? && r.id < |pathStore| && pathStore[r.id].Route?
  }

  /** The scan for the path joining `from` and `to`, from entry `k` on. */
  function ScanFrom(pathStore: seq<PathObj>, rs: seq<PathRef>, k: nat, from: Pos, to: Pos): (r: Scan)
    requires RoutesOK(pathStore) && k <= |rs|
    ensures r.Found? ==> k <= r.i < |rs| && Readable(pathStore, rs[r.i]) && EndsMatch(pathStore[rs[r.i].id].positions, from, to)
    ensures r.Found? ==> forall t :: k <= t < r.i ==>
              Readable(pathStore, rs[t]) && !EndsMatch(pathStore[rs[t].id].positions, from, to)
    ensures r.Missing? ==> forall t :: k <= t < |rs| ==>
              Readable(pathStore, rs[t]) && !EndsMatch(pathStore[rs[t].id].positions, from, to)
    decreases |rs| - k
  {
    if k == |rs| then Missing
    else if !Readable(pathStore, rs[k]) then Broken
    else if EndsMatch(pathStore[rs[k].id].positions, from, to) then Found(k)
    else ScanFrom(pathStore, rs, k + 1, from, to)
  }

  /**
   * The scan reports `Broken` only at an entry without positions, met before any match:
   * every earlier entry is a route that does not match.
   */
  lemma {:induction false} ScanBroken(pathStore: seq<PathObj>, rs: seq<PathRef>, k: nat, from: Pos, to: Pos)
    requires RoutesOK(pathStore) && k <= |rs| && ScanFrom(pathStore, rs, k, from, to).Broken?
    ensures exists b :: k <= b < |rs| && !Readable(pathStore, rs[b]) &&
              forall t :: k <= t < b ==> Readable(pathStore, rs[t]) && !EndsMatch(pathStore[rs[t].id].positions, from, to)
    decreases |rs| - k
  {
    if Readable(pathStore, rs[k]) {
      ScanBroken(pathStore, rs, k + 1, from, to);
      var b :| k + 1 <= b < |rs| && !Readable(pathStore, rs[b]) &&
               forall t :: k + 1 <= t < b ==> Readable(pathStore, rs[t]) && !EndsMatch(pathStore[rs[t].id].positions, from, to);
      assert forall t :: k <= t < b ==> Readable(pathStore, rs[t]) && !EndsMatch(pathStore[rs[t].id].positions, from, to);
    }
  }

  /** The scan loop over a port's path list. */
  method FindPath(pathStore: seq<PathObj>, rs: seq<PathRef>, from: Pos, to: Pos) returns (r: Scan)
    requires RoutesOK(pathStore)
    ensures r == ScanFrom(pathStore, rs, 0, from, to)
  {
    var k := 0;
    while k < |rs|
      invariant 0 <= k <= |rs|
      invariant ScanFrom(pathStore, rs, k, from, to) == ScanFrom(pathStore, rs, 0, from, to)
    {
      var e := rs[k];
      if !(e.PathObj? && e.id < |pathStore| && pathStore[e.id].Route?) {
        return Broken;
      }
      var ps := pathStore[e.id].positions;
      if from == ps[|ps| - 1] {
        if to == ps[0] {
          return Found(k);
        }
      } else if from == ps[0] {
        if to == ps[|ps| - 1] {
          return Found(k);
        }
      }
      k := k + 1;
    }
    return Missing;
  }

  /** The index of the first of `ports`, placed with their node at `origin`, that sits at `p`. */
  function PortUnder(origin: Pos, ports: seq<Port>, p: Pos): (r: Option<nat>)
    ensures r.Some? ==> r.value < |ports| && Site(origin, ports[r.value]) == p
    ensures r.Some? ==> forall q :: 0 <= q < r.value ==> Site(origin, ports[q]) != p
    ensures r.None? <==> forall q :: 0 <= q < |ports| ==> Site(origin, ports[q]) != p
    decreases |ports|
  {
    if ports == [] then None
    else if Site(origin, ports[0]) == p then Some(0)
    else
      match PortUnder(origin, ports[1..], p)
      case None => None
      case Some(q) => Some(q + 1)
  }

  /** Where a port of a node at `origin` sits on the grid. */
  function Site(origin: Pos, port: Port): Pos
  {
    Pos(origin.x + port.offset.x, origin.y + port.offset.y)
  }

  /** All path references held by `ports`, in port order. */
  function AllPaths(ports: seq<Port>): seq<PathRef>
  {
    if ports == [] then [] else ports[0].paths + AllPaths(ports[1..])
  }

  /** Removing each element of `xs + ys` is removing those of `xs` and then those of `ys`. */
  lemma {:induction false} RemoveEachAppend(s: seq<PathRef>, xs: seq<PathRef>, ys: seq<PathRef>)
    ensures RemoveEach(s, xs + ys) == RemoveEach(RemoveEach(s, xs), ys)
    decreases |xs|
  {
    if xs == [] {
      assert xs + ys == ys;
    } else {
      var s' := RemoveFirst(s, xs[0]);
      assert (xs + ys)[0] == xs[0] && (xs + ys)[1..] == xs[1..] + ys;
      assert RemoveEach(s, xs + ys) == RemoveEach(s', xs[1..] + ys);
      assert RemoveEach(s, xs) == RemoveEach(s', xs[1..]);
      RemoveEachAppend(s', xs[1..], ys);
    }
  }

  /**
   * The back-link search, from connection `u` of port `q` on: the first connection `c` of
   * the node's ports whose own connection list holds the port `PortRef(id, q)` it came
   * from, with that entry's index.
   */
  function BackLinkFrom(store: seq<Node>, id: nat, ports: seq<Port>, q: nat, u: nat): (r: Option<(PortRef, nat)>)
    requires PortsOK(store, ports) && q <= |ports| && (q < |ports| ==> u <= |ports[q].connections|)
    ensures r.Some? ==> RefOK(store, r.value.0) && r.value.1 < |PortOf(store, r.value.0).connections|
    decreases |ports| - q, if q < |ports| then |ports[q].connections| - u else 0
  {
    if q == |ports| then None
    else if u == |ports[q].connections| then BackLinkFrom(store, id, ports, q + 1, 0)
    else
      PortRefs(store, ports, q);
      var c := ports[q].connections[u];
      var i := IndexOf(PortOf(store, c).connections, PortRef(id, q));
      if i >= 0 then Some((c, i)) else BackLinkFrom(store, id, ports, q, u + 1)
  }

  /** A back-link found is an entry, in a connected port's list, naming the node's port it came from. */
  lemma {:induction false} BackLinkFound(store: seq<Node>, id: nat, ports: seq<Port>, q: nat, u: nat)
    requires PortsOK(store, ports) && q <= |ports| && (q < |ports| ==> u <= |ports[q].connections|)
    requires BackLinkFrom(store, id, ports, q, u).Some?
    ensures var (c, i) := BackLinkFrom(store, id, ports, q, u).value;
            exists q' :: q <= q' < |ports| && c in ports[q'].connections && PortOf(store, c).connections[i] == PortRef(id, q')
    decreases |ports| - q, if q < |ports| then |ports[q].connections| - u else 0
  {
    var (c, i) := BackLinkFrom(store, id, ports, q, u).value;
    if u == |ports[q].connections| {
      BackLinkFound(store, id, ports, q + 1, 0);
    } else {
      PortRefs(store, ports, q);
      var c' := ports[q].connections[u];
      if IndexOf(PortOf(store, c').connections, PortRef(id, q)) >= 0 {
        assert c == c' && PortOf(store, c).connections[i] == PortRef(id, q);
      } else {
        BackLinkFound(store, id, ports, q, u + 1);
      }
    }
  }

  /** With no back-link from connection `u` of port `q` on, none of the later connections lists its port. */
  lemma {:induction false} BackLinkFromNone(store: seq<Node>, id: nat, ports: seq<Port>, q: nat, u: nat)
    requires PortsOK(store, ports) && q <= |ports| && (q < |ports| ==> u <= |ports[q].connections|)
    requires BackLinkFrom(store, id, ports, q, u).None?
    ensures forall q', c :: q < q' < |ports| && c in ports[q'].connections ==>
              RefOK(store, c) && PortRef(id, q') !in PortOf(store, c).connections
    ensures q < |ports| ==> forall c :: c in ports[q].connections[u..] ==>
              RefOK(store, c) && PortRef(id, q) !in PortOf(store, c).connections
    decreases |ports| - q, if q < |ports| then |ports[q].connections| - u else 0
  {
    if q == |ports| {
    } else if u == |ports[q].connections| {
      BackLinkFromNone(store, id, ports, q + 1, 0);
      assert q + 1 < |ports| ==> ports[q + 1].connections[0..] == ports[q + 1].connections;
    } else {
      PortRefs(store, ports, q);
      assert ports[q].connections[u..] == [ports[q].connections[u]] + ports[q].connections[u + 1..];
      BackLinkFromNone(store, id, ports, q, u + 1);
    }
  }

  /** Without a back-link, no port connected to the node lists the node's port. */
  lemma BackLinkNone(store: seq<Node>, id: nat, ports: seq<Port>)
    requires PortsOK(store, ports)
    requires BackLinkFrom(store, id, ports, 0, 0).None?
    ensures forall q, c :: 0 <= q < |ports| && c in ports[q].connections ==>
              RefOK(store, c) && PortRef(id, q) !in PortOf(store, c).connections
  {
    BackLinkFromNone(store, id, ports, 0, 0);
    forall q, c | 0 <= q < |ports| && c in ports[q].connections
      ensures RefOK(store, c) && PortRef(id, q) !in PortOf(store, c).connections
    {
      if q == 0 {
        assert ports[0].connections[0..] == ports[0].connections;
      }
    }
  }

  /** The loop over one port's path list: each reference's first equal entry, if any, is spliced out. */
  method DropEach(paths: seq<PathRef>, xs: seq<PathRef>) returns (r: seq<PathRef>)
    ensures r == RemoveEach(paths, xs)
  {
    r := paths;
    var u := 0;
    while u < |xs|
      invariant 0 <= u <= |xs|
      invariant RemoveEach(r, xs[u..]) == RemoveEach(paths, xs)
    {
      assert xs[u..][0] == xs[u] && xs[u..][1..] == xs[u + 1..];
      var i := IndexOf(r, xs[u]);
      if i >= 0 {
        r := RemoveAt(r, i);
      }
      u := u + 1;
    }
  }

  /**
   * The loop that drops a deleted node's paths from the global list: for each path
   * reference of each port, the first equal entry of the list, if any, is spliced out.
   */
  method DropPaths(paths: seq<PathRef>, ports: seq<Port>) returns (r: seq<PathRef>)
    ensures r == RemoveEach(paths, AllPaths(ports))
  {
    r := paths;
    var q := 0;
    while q < |ports|
      invariant 0 <= q <= |ports|
      invariant RemoveEach(r, AllPaths(ports[q..])) == RemoveEach(paths, AllPaths(ports))
    {
      assert ports[q..][0] == ports[q] && ports[q..][1..] == ports[q + 1..];
      assert AllPaths(ports[q..]) == ports[q].paths + AllPaths(ports[q + 1..]);
      RemoveEachAppend(r, ports[q].paths, AllPaths(ports[q + 1..]));
      r := DropEach(r, ports[q].paths);
      q := q + 1;
    }
  }

  /**
   * The loop that looks, port by port and connection by connection, for the first
   * connected port whose own connection list holds the port it came from.
   */
  method FindBackLink(store: seq<Node>, id: nat, ports: seq<Port>) returns (r: Option<(PortRef, nat)>)
    requires PortsOK(store, ports)
    ensures r == BackLinkFrom(store, id, ports, 0, 0)
  {
    var q := 0;
    while q < |ports|
      invariant 0 <= q <= |ports|
      invariant BackLinkFrom(store, id, ports, q, 0) == BackLinkFrom(store, id, ports, 0, 0)
    {
      var u := 0;
      while u < |ports[q].connections|
        invariant 0 <= u <= |ports[q].connections|
        invariant BackLinkFrom(store, id, ports, q, u) == BackLinkFrom(store, id, ports, 0, 0)
      {
        PortRefs(store, ports, q);
        var c := ports[q].connections[u];
        var i := IndexOf(PortOf(store, c).connections, PortRef(id, q));
        if i >= 0 {
          return Some((c, i));
        }
        u := u + 1;
      }
      q := q + 1;
    }
    return None;
  }

  /**
   * The port lists after a node's deletion: the first back-link found, if any, is spliced
   * out of its port's connection list; that port's path indices are not touched.
   */
  function CutBackLink(store: seq<Node>, id: nat, ports: seq<Port>): (s: seq<Node>)
    requires PortsOK(store, ports)
    ensures |s| == |store| && forall c :: RefOK(s, c) <==> RefOK(store, c)
  {
    match BackLinkFrom(store, id, ports, 0, 0)
    case None => store
    case Some(link) =>
      var p := PortOf(store, link.0);
      SetPort(store, link.0, p.(connections := RemoveAt(p.connections, link.1)))
  }

  /** The splice loop of a deletion, which stops after its first removal. */
  method RemoveBackLink(store: seq<Node>, id: nat, ports: seq<Port>) returns (s: seq<Node>, cut: bool)
    requires PortsOK(store, ports)
    ensures s == CutBackLink(store, id, ports)
    ensures cut <==> BackLinkFrom(store, id, ports, 0, 0).Some?
  {
    var link := FindBackLink(store, id, ports);
    if link.None? {
      return store, false;
    }
    var (c, i) := link.value;
    var p := PortOf(store, c);
    s, cut := SetPort(store, c, p.(connections := RemoveAt(p.connections, i))), true;
  }

  /**
   * The port lists after a disconnect that found its path at index `i` of `a`'s path list:
   * the connection is gone from both ports, that entry from `a`'s paths and the first
   * equal entry from `b`'s.
   */
  function Unlink(store: seq<Node>, a: PortRef, b: PortRef, i: nat): (s: seq<Node>)
    requires RefOK(store, a) && RefOK(store, b) && i < |PortOf(store, a).paths|
    ensures |s| == |store| && forall c :: RefOK(s, c) <==> RefOK(store, c)
  {
    var pa := PortOf(store, a);
    var s1 := SetPort(store, a, pa.(connections := RemoveFirst(pa.connections, b), paths := RemoveAt(pa.paths, i)));
    var pb := PortOf(s1, b);
    SetPort(s1, b, pb.(connections := RemoveFirst(pb.connections, a), paths := RemoveFirst(pb.paths, pa.paths[i])))
  }

  /** A port replaced twice holds only the second replacement. */
  lemma SetPortTwice(store: seq<Node>, r: PortRef, p: Port, q: Port)
    requires RefOK(store, r)
    ensures PortOf(SetPort(store, r, p), r) == p
    ensures SetPort(SetPort(store, r, p), r, q) == SetPort(store, r, q)
  {
    var ports := store[r.node].ports;
    assert ports[r.index := p][r.index := q] == ports[r.index := q];
  }

  /**
   * `Unlink` is the four single edits in the order the disconnect makes them: `a` drops its
   * connection to `b`, then its path at `i`; `b` drops its connection to `a`, then that path.
   */
  lemma UnlinkInSteps(store: seq<Node>, a: PortRef, b: PortRef, i: nat)
    requires RefOK(store, a) && RefOK(store, b) && i < |PortOf(store, a).paths|
    ensures Unlink(store, a, b, i) == DropPath(Detach(DropPathAt(Detach(store, a, b), a, i), b, a), b, PortOf(store, a).paths[i])
  {
    var pa := PortOf(store, a);
    var p1 := pa.(connections := RemoveFirst(pa.connections, b));
    SetPortTwice(store, a, p1, p1.(paths := RemoveAt(p1.paths, i)));
    var t := DropPathAt(Detach(store, a, b), a, i);
    var pb := PortOf(t, b);
    var q1 := pb.(connections := RemoveFirst(pb.connections, a));
    SetPortTwice(t, b, q1, q1.(paths := RemoveFirst(q1.paths, pa.paths[i])));
  }

  /** `x` appended to a list without it is the first `x` of the result, and removing it undoes the append. */
  lemma RemoveFirstAppended<T>(s: seq<T>, x: T)
    requires x !in s
    ensures IndexOf(s + [x], x) == |s|
    ensures RemoveFirst(s + [x], x) == s
  {
    assert (s + [x])[|s|] == x;
    assert forall t :: 0 <= t < |s| ==> (s + [x])[t] == s[t];
    assert RemoveAt(s + [x], |s|) == s;
  }

  /**
   * Connecting two unconnected ports with a path neither holds, then disconnecting them
   * with that path found at its index, gives back the original ports.
   */
  lemma ToggleTwice(store: seq<Node>, a: PortRef, b: PortRef, path: PathRef)
    requires RefOK(store, a) && RefOK(store, b) && a != b
    requires b !in PortOf(store, a).connections && a !in PortOf(store, b).connections
    requires path !in PortOf(store, a).paths && path !in PortOf(store, b).paths
    ensures Linked(Connect(store, a, b, path), a, b)
    ensures |PortOf(Connect(store, a, b, path), a).paths| == |PortOf(store, a).paths| + 1
    ensures Unlink(Connect(store, a, b, path), a, b, |PortOf(store, a).paths|) == store
  {
    var pa, pb := PortOf(store, a), PortOf(store, b);
    var s := Connect(store, a, b, path);
    ConnectEffect(store, a, b, path);
    SetPortEffect(store, a, pa.(connections := pa.connections + [b], paths := pa.paths + [path]));
    SetPortEffect(Attach(store, a, b, path), b, pb.(connections := pb.connections + [a], paths := pb.paths + [path]));
    SameNodesTrans(store, Attach(store, a, b, path), s);
    RemoveFirstAppended(pa.connections, b);
    RemoveFirstAppended(pb.connections, a);
    RemoveFirstAppended(pb.paths, path);
    assert RemoveAt(pa.paths + [path], |pa.paths|) == pa.paths;
    assert PortOf(s, a).paths[|pa.paths|] == path;
    var s1 := SetPort(s, a, pa);
    var u := SetPort(s1, b, pb);
    SetPortEffect(s, a, pa);
    SetPortEffect(s1, b, pb);
    assert u == Unlink(s, a, b, |pa.paths|);
    forall c | RefOK(store, c) ensures RefOK(u, c) && PortOf(u, c) == PortOf(store, c) {
      assert RefOK(s, c) && RefOK(s1, c);
    }
    SameNodesTrans(store, s, s1);
    SameNodesTrans(store, s1, u);
    SamePortsSameStore(store, u);
  }

  /** What `SetPort` does, as a fact about its arguments. */
  lemma SetPortEffect(store: seq<Node>, r: PortRef, p: Port)
    requires RefOK(store, r)
    ensures SameNodes(store, SetPort(store, r, p))
    ensures forall c :: RefOK(store, c) ==>
              RefOK(SetPort(store, r, p), c) && PortOf(SetPort(store, r, p), c) == if c == r then p else PortOf(store, c)
  {
  }

  lemma SameNodesTrans(store: seq<Node>, s: seq<Node>, s': seq<Node>)
    requires SameNodes(store, s) && SameNodes(s, s')
    ensures SameNodes(store, s')
  {
  }

  /** Two stores that differ at most in their nodes' port lists, which have the same lengths. */
  predicate SameNodes(store: seq<Node>, store': seq<Node>)
  {
    |store'| == |store| &&
    forall i :: 0 <= i < |store| ==> store'[i] == store[i].(ports := store'[i].ports) && |store'[i].ports| == |store[i].ports|
  }

  /** Stores with the same nodes and the same ports are equal. */
  lemma SamePortsSameStore(store: seq<Node>, store': seq<Node>)
    requires SameNodes(store, store')
    requires forall c :: RefOK(store, c) ==> RefOK(store', c) && PortOf(store', c) == PortOf(store, c)
    ensures store' == store
  {
    forall i | 0 <= i < |store| ensures store'[i] == store[i] {
      forall q | 0 <= q < |store[i].ports| ensures store'[i].ports[q] == store[i].ports[q] {
        assert RefOK(store, PortRef(i, q));
      }
    }
  }

  /**
   * A path appended behind entries that are readable and do not match is the one the
   * scan finds, when its end points are the two ports'.
   */
  lemma {:induction false} ScanFindsAppended(pathStore: seq<PathObj>, rs: seq<PathRef>, k: nat, path: PathRef, from: Pos, to: Pos)
    requires RoutesOK(pathStore) && k <= |rs| && ScanFrom(pathStore, rs, k, from, to).Missing?
    requires Readable(pathStore, path) && EndsMatch(pathStore[path.id].positions, from, to)
    ensures ScanFrom(pathStore, rs + [path], k, from, to) == Found(|rs|)
    decreases |rs| - k
  {
    var rs' := rs + [path];
    if k < |rs| {
      assert rs'[k] == rs[k];
      ScanFindsAppended(pathStore, rs, k + 1, path, from, to);
    } else {
      assert rs'[k] == path;
    }
  }
}
