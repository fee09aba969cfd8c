/**
 * The evaluation engine: one tick of the worklist dataflow over the node store. Nodes are
 * named by their index in the store; a connection names the node and port it leads to.
 */
module Engine {
  import opened Geometry
  import opened Catalog

  predicate NoDupIds(s: seq<nat>)
  {
    forall a, b :: 0 <= a < b < |s| ==> s[a] != s[b]
  }

  /** A connection names an existing port of an existing node. */
  predicate RefOK(store: seq<Node>, c: PortRef)
  {
    c.node < |store| && c.index < |store[c.node].ports|
  }

  predicate PortsOK(store: seq<Node>, ports: seq<Port>)
  {
    forall q, c :: 0 <= q < |ports| && c in ports[q].connections ==> RefOK(store, c)
  }

  /** Every stored node is well formed and all its connections lead to existing ports. */
  predicate StoreOK(store: seq<Node>)
  {
    forall i :: 0 <= i < |store| ==> WellFormed(store[i]) && PortsOK(store, store[i].ports)
  }

  predicate IdsIn(store: seq<Node>, ids: seq<nat>)
  {
    forall t :: 0 <= t < |ids| ==> ids[t] < |store|
  }

  /** Two stores that differ at most in the nodes' outputs. */
  predicate SameButOuts(store: seq<Node>, store': seq<Node>)
  {
    |store'| == |store| && forall i :: 0 <= i < |store| ==> store'[i] == store[i].(out := store'[i].out)
  }

  /** `id` pushed onto the worklist unless it is already there. */
  function Push(acc: seq<nat>, id: nat): (r: seq<nat>)
    ensures forall x :: x in r <==> x in acc || x == id
    ensures NoDupIds(acc) ==> NoDupIds(r)
    ensures acc <= r
  {
    if id in acc then acc else acc + [id]
  }

  /** Pushes the owner of each connected port, in connection order. */
  function AddOwners(acc: seq<nat>, conns: seq<PortRef>): (r: seq<nat>)
    ensures forall x :: x in r <==> x in acc || exists c :: c in conns && c.node == x
    ensures NoDupIds(acc) ==> NoDupIds(r)
    ensures acc <= r
    decreases |conns|
  {
    if conns == [] then acc else AddOwners(Push(acc, conns[0].node), conns[1..])
  }

  /** Some port of `ports` (an output port, unless `all`) is connected to a port of node `x`. */
  ghost predicate Feeds(ports: seq<Port>, x: nat, all: bool)
  {
    exists q, c :: 0 <= q < |ports| && (all || ports[q].dir != InDir) && c in ports[q].connections && c.node == x
  }

  /** Pushes the owners of the connections of every port (every output port, unless `all`). */
  function Reach(acc: seq<nat>, ports: seq<Port>, all: bool): (r: seq<nat>)
    ensures NoDupIds(acc) ==> NoDupIds(r)
    ensures acc <= r
    decreases |ports|
  {
    if ports == [] then acc
    else Reach(if all || ports[0].dir != InDir then AddOwners(acc, ports[0].connections) else acc, ports[1..], all)
  }

  lemma {:induction false} ReachMembers(acc: seq<nat>, ports: seq<Port>, all: bool, x: nat)
    ensures x in Reach(acc, ports, all) <==> x in acc || Feeds(ports, x, all)
    decreases |ports|
  {
    if ports != [] {
      var acc' := if all || ports[0].dir != InDir then AddOwners(acc, ports[0].connections) else acc;
      ReachMembers(acc', ports[1..], all, x);
      if Feeds(ports, x, all) {
        var q, c :| 0 <= q < |ports| && (all || ports[q].dir != InDir) && c in ports[q].connections && c.node == x;
        if q > 0 {
          assert ports[1..][q - 1] == ports[q];
        }
      }
      if Feeds(ports[1..], x, all) {
        var q, c :| 0 <= q < |ports| - 1 && (all || ports[1..][q].dir != InDir) && c in ports[1..][q].connections && c.node == x;
        assert ports[q + 1] == ports[1..][q];
      }
    }
  }

  /**
   * A node that takes part: when seeding, only Input nodes (all their ports); in a step,
   * every node (its output ports).
   */
  predicate Takes(n: Node, seed: bool)
  {
    !seed || n.kind == InputNode
  }

  /** The worklist contributions of the nodes `ids`, in order. */
  function Enqueue(acc: seq<nat>, store: seq<Node>, ids: seq<nat>, seed: bool): (r: seq<nat>)
    requires IdsIn(store, ids)
    ensures NoDupIds(acc) ==> NoDupIds(r)
    ensures acc <= r
    decreases |ids|
  {
    if ids == [] then acc
    else Enqueue(if Takes(store[ids[0]], seed) then Reach(acc, store[ids[0]].ports, seed) else acc, store, ids[1..], seed)
  }

  /**
   * The worklist built by `Enqueue` holds exactly the earlier entries and the owners of the
   * ports connected to a port of a taking part node of `ids`.
   */
  lemma {:induction false} EnqueueMembers(acc: seq<nat>, store: seq<Node>, ids: seq<nat>, seed: bool, x: nat)
    requires IdsIn(store, ids)
    ensures x in Enqueue(acc, store, ids, seed) <==>
              x in acc || exists t :: 0 <= t < |ids| && Takes(store[ids[t]], seed) && Feeds(store[ids[t]].ports, x, seed)
    decreases |ids|
  {
    if ids != [] {
      var n := store[ids[0]];
      var acc' := if Takes(n, seed) then Reach(acc, n.ports, seed) else acc;
      ReachMembers(acc, n.ports, seed, x);
      EnqueueMembers(acc', store, ids[1..], seed, x);
      if exists t :: 0 <= t < |ids| && Takes(store[ids[t]], seed) && Feeds(store[ids[t]].ports, x, seed) {
        var t :| 0 <= t < |ids| && Takes(store[ids[t]], seed) && Feeds(store[ids[t]].ports, x, seed);
        if t > 0 {
          assert ids[1..][t - 1] == ids[t];
        }
      }
      if exists t :: 0 <= t < |ids| - 1 && Takes(store[ids[1..][t]], seed) && Feeds(store[ids[1..][t]].ports, x, seed) {
        var t :| 0 <= t < |ids| - 1 && Takes(store[ids[1..][t]], seed) && Feeds(store[ids[1..][t]].ports, x, seed);
        assert ids[t + 1] == ids[1..][t];
      }
    }
  }

  /** The worklist only depends on the nodes' ports, not on their outputs. */
  lemma {:induction false} EnqueueIgnoresOuts(acc: seq<nat>, store: seq<Node>, store': seq<Node>, ids: seq<nat>, seed: bool)
    requires IdsIn(store, ids) && SameButOuts(store, store')
    ensures Enqueue(acc, store', ids, seed) == Enqueue(acc, store, ids, seed)
    decreases |ids|
  {
    if ids != [] {
      var n := store[ids[0]];
      EnqueueIgnoresOuts(if Takes(n, seed) then Reach(acc, n.ports, seed) else acc, store, store', ids[1..], seed);
    }
  }

  /** Every worklist entry names a stored node when the connections lead to existing ports. */
  lemma EnqueueInStore(acc: seq<nat>, store: seq<Node>, ids: seq<nat>, seed: bool)
    requires StoreOK(store) && IdsIn(store, ids) && IdsIn(store, acc)
    ensures IdsIn(store, Enqueue(acc, store, ids, seed))
  {
    var r := Enqueue(acc, store, ids, seed);
    forall k | 0 <= k < |r| ensures r[k] < |store| {
      var x := r[k];
      EnqueueMembers(acc, store, ids, seed, x);
      if x !in acc {
        var t :| 0 <= t < |ids| && Takes(store[ids[t]], seed) && Feeds(store[ids[t]].ports, x, seed);
        FeedsInStore(store, store[ids[t]].ports, x, seed);
      }
    }
  }

  /** A node fed by valid ports names a stored node. */
  lemma FeedsInStore(store: seq<Node>, ports: seq<Port>, x: nat, all: bool)
    requires PortsOK(store, ports) && Feeds(ports, x, all)
    ensures x < |store|
  {
    var q, c :| 0 <= q < |ports| && (all || ports[q].dir != InDir) && c in ports[q].connections && c.node == x;
    assert RefOK(store, c);
  }

  lemma PortRefs(store: seq<Node>, ports: seq<Port>, q: nat)
    requires PortsOK(store, ports) && q < |ports|
    ensures forall c :: c in ports[q].connections ==> RefOK(store, c) && c.node < |store|
  {
  }

  lemma PortsTail(store: seq<Node>, ports: seq<Port>)
    requires PortsOK(store, ports) && ports != []
    ensures PortsOK(store, ports[1..])
  {
    forall t, c | 0 <= t < |ports| - 1 && c in ports[1..][t].connections ensures RefOK(store, c) {
      assert ports[1..][t] == ports[t + 1];
    }
  }

  /** The value an input port reads: the output of the node behind its first connection, or 0. */
  function InputValue(store: seq<Node>, p: Port): int
    requires forall c :: c in p.connections ==> c.node < |store|
  {
    if |p.connections| > 0 then store[p.connections[0].node].out else 0
  }

  /** The input vector of a node: one value per input port, in port order. */
  function Gather(acc: seq<int>, store: seq<Node>, ports: seq<Port>): (r: seq<int>)
    requires PortsOK(store, ports)
    ensures |r| == |acc| + InCount(ports)
    ensures acc <= r
    ensures Bits(acc) && StoreOK(store) ==> Bits(r)
    decreases |ports|
  {
    if ports == [] then acc
    else
      PortRefs(store, ports, 0);
      PortsTail(store, ports);
      Gather(if ports[0].dir == InDir then acc + [InputValue(store, ports[0])] else acc, store, ports[1..])
  }

  /**
   * Entry `InCount(ports[..q])` of the gathered vector, counted from the end of `acc`, is the
   * value of input port `q`: the vector has one entry per input port in port order.
   */
  lemma {:induction false} GatherEntry(acc: seq<int>, store: seq<Node>, ports: seq<Port>, q: nat)
    requires PortsOK(store, ports) && q < |ports| && ports[q].dir == InDir
    ensures |acc| + InCount(ports[..q]) < |Gather(acc, store, ports)|
    ensures forall c :: c in ports[q].connections ==> c.node < |store|
    ensures Gather(acc, store, ports)[|acc| + InCount(ports[..q])] == InputValue(store, ports[q])
    decreases |ports|
  {
    PortRefs(store, ports, q);
    PortRefs(store, ports, 0);
    var acc' := if ports[0].dir == InDir then acc + [InputValue(store, ports[0])] else acc;
    assert ports[1..] == ports[1..];
    if q == 0 {
      assert ports[..0] == [];
      assert acc' == acc + [InputValue(store, ports[0])];
      var r := Gather(acc', store, ports[1..]);
      assert acc' <= r;
      assert r[|acc|] == acc'[|acc|];
    } else {
      PortsTail(store, ports);
      assert ports[1..][q - 1] == ports[q];
      GatherEntry(acc', store, ports[1..], q - 1);
      assert ports[..q][1..] == ports[1..][..q - 1];
      assert InCount(ports[..q]) == (if ports[0].dir == InDir then 1 else 0) + InCount(ports[1..][..q - 1]);
    }
  }

  /** `store` after node `id` applies its logic rule to its gathered inputs. */
  function Fire(store: seq<Node>, id: nat): (r: seq<Node>)
    requires StoreOK(store) && id < |store|
    ensures SameButOuts(store, r) && StoreOK(r)
    ensures forall i :: 0 <= i < |store| && i != id ==> r[i] == store[i]
    ensures store[id].kind == InputNode ==> r == store
    ensures InCount(store[id].ports) == Arity(store[id].kind)
            && r == store[id := store[id].(out := Logic(store[id].kind, store[id].out, Gather([], store, store[id].ports)))]
  {
    var n := store[id];
    ArityIsInCount(n);
    var r := store[id := n.(out := Logic(n.kind, n.out, Gather([], store, n.ports)))];
    OutsKeepStore(store, r);
    r
  }

  /** Changing outputs to 0/1 values keeps a store well formed and its connections valid. */
  lemma OutsKeepStore(store: seq<Node>, store': seq<Node>)
    requires StoreOK(store) && SameButOuts(store, store')
    requires forall i :: 0 <= i < |store'| ==> IsBit(store'[i].out)
    ensures StoreOK(store')
  {
    forall i | 0 <= i < |store'| ensures WellFormed(store'[i]) && PortsOK(store', store'[i].ports) {
      assert WellFormed(store[i]) && PortsOK(store, store[i].ports);
      forall q, c | 0 <= q < |store'[i].ports| && c in store'[i].ports[q].connections ensures RefOK(store', c) {
        assert RefOK(store, c);
      }
    }
  }

  /**
   * The nodes `ids` fire one after the other, each reading the outputs left by the earlier
   * ones. Only outputs change, and an Input node's output never does.
   */
  function Run(store: seq<Node>, ids: seq<nat>): (r: seq<Node>)
    requires StoreOK(store) && IdsIn(store, ids)
    ensures SameButOuts(store, r) && StoreOK(r)
    ensures forall i :: 0 <= i < |store| && (store[i].kind == InputNode || i !in ids) ==> r[i] == store[i]
    decreases |ids|
  {
    if ids == [] then store else Run(Fire(store, ids[0]), ids[1..])
  }

  /** The nodes evaluated in a tick: the pending worklist, or the Input nodes' targets when it is empty. */
  function Snapshot(store: seq<Node>, live: seq<nat>, next: seq<nat>): (r: seq<nat>)
    requires IdsIn(store, live)
    ensures next != [] ==> r == next
    ensures next == [] || NoDupIds(next) ==> NoDupIds(r)
    ensures StoreOK(store) && IdsIn(store, next) ==> IdsIn(store, r)
  {
    if next == [] then
      if StoreOK(store) then EnqueueInStore([], store, live, true); Enqueue([], store, live, true)
      else Enqueue([], store, live, true)
    else next
  }

  /** The worklist after a tick: duplicate free, and exactly the nodes one hop downstream of `cur`. */
  lemma NextWorklist(store: seq<Node>, cur: seq<nat>, x: nat)
    requires IdsIn(store, cur)
    ensures NoDupIds(Enqueue([], store, cur, false))
    ensures x in Enqueue([], store, cur, false) <==> exists t :: 0 <= t < |cur| && Feeds(store[cur[t]].ports, x, false)
  {
    EnqueueMembers([], store, cur, false, x);
  }

  /** The seeded worklist: exactly the nodes connected to a port of a live Input node. */
  lemma SeedWorklist(store: seq<Node>, live: seq<nat>, x: nat)
    requires IdsIn(store, live)
    ensures x in Snapshot(store, live, []) <==>
              exists t :: 0 <= t < |live| && store[live[t]].kind == InputNode && Feeds(store[live[t]].ports, x, true)
  {
    EnqueueMembers([], store, live, true, x);
  }

  /** The pushing loop over one port's connections. */
  method EnqueueOwners(acc: seq<nat>, conns: seq<PortRef>) returns (r: seq<nat>)
    ensures r == AddOwners(acc, conns)
  {
    r := acc;
    var u := 0;
    while u < |conns|
      invariant 0 <= u <= |conns|
      invariant AddOwners(r, conns[u..]) == AddOwners(acc, conns)
    {
      assert conns[u..][1..] == conns[u + 1..];
      if conns[u].node !in r {
        r := r + [conns[u].node];
      }
      u := u + 1;
    }
  }

  /** The seeding loop over the live nodes, their ports and their connections. */
  method SeedLoop(store: seq<Node>, live: seq<nat>) returns (r: seq<nat>)
    requires IdsIn(store, live)
    ensures r == Enqueue([], store, live, true)
  {
    r := [];
    var t := 0;
    while t < |live|
      invariant 0 <= t <= |live|
      invariant Enqueue(r, store, live[t..], true) == Enqueue([], store, live, true)
    {
      assert live[t..][1..] == live[t + 1..];
      var n := store[live[t]];
      if n.kind == InputNode {
        var q := 0;
        ghost var r0 := r;
        while q < |n.ports|
          invariant 0 <= q <= |n.ports|
          invariant Reach(r, n.ports[q..], true) == Reach(r0, n.ports, true)
        {
          assert n.ports[q..][1..] == n.ports[q + 1..];
          r := EnqueueOwners(r, n.ports[q].connections);
          q := q + 1;
        }
      }
      t := t + 1;
    }
  }

  /**
   * One node's pass over its ports: an input port contributes its value to the input
   * vector, an output port pushes the owners of its connections onto the worklist.
   */
  method ScanPorts(store: seq<Node>, ports: seq<Port>, next: seq<nat>) returns (inputs: seq<int>, next': seq<nat>)
    requires PortsOK(store, ports)
    ensures inputs == Gather([], store, ports)
    ensures next' == Reach(next, ports, false)
  {
    inputs, next' := [], next;
    var q := 0;
    while q < |ports|
      invariant 0 <= q <= |ports|
      invariant PortsOK(store, ports[q..])
      invariant Gather(inputs, store, ports[q..]) == Gather([], store, ports)
      invariant Reach(next', ports[q..], false) == Reach(next, ports, false)
    {
      assert ports[q..][1..] == ports[q + 1..];
      assert ports[q..][0] == ports[q];
      PortRefs(store, ports[q..], 0);
      PortsTail(store, ports[q..]);
      var p := ports[q];
      if p.dir == InDir {
        if |p.connections| > 0 {
          var c := p.connections[0];
          inputs := inputs + [store[c.node].out];
        } else {
          inputs := inputs + [0];
        }
      } else {
        next' := EnqueueOwners(next', p.connections);
      }
      q := q + 1;
    }
  }

  /**
   * One pass over the worklist `cur`: each node in turn reads its inputs, queues the nodes
   * behind its output ports and applies its rule, so later nodes see earlier outputs.
   */
  method Propagate(store: seq<Node>, cur: seq<nat>) returns (store': seq<Node>, next: seq<nat>)
    requires StoreOK(store) && IdsIn(store, cur)
    ensures store' == Run(store, cur)
    ensures next == Enqueue([], store, cur, false)
  {
    store', next := store, [];
    var t := 0;
    while t < |cur|
      invariant 0 <= t <= |cur|
      invariant StoreOK(store') && SameButOuts(store, store')
      invariant Run(store, cur) == Run(store', cur[t..])
      invariant Enqueue(next, store, cur[t..], false) == Enqueue([], store, cur, false)
    {
      PropagateStep(store, cur, t, store', next);
      store', next := Visit(store', cur[t], next);
      t := t + 1;
    }
  }

  /** One node of the pass: it reads its inputs, queues the nodes behind its output ports and applies its rule. */
  method Visit(store: seq<Node>, id: nat, next: seq<nat>) returns (store': seq<Node>, next': seq<nat>)
    requires StoreOK(store) && id < |store|
    ensures store' == Fire(store, id)
    ensures next' == Reach(next, store[id].ports, false)
  {
    var n := store[id];
    var inputs;
    inputs, next' := ScanPorts(store, n.ports, next);
    ArityIsInCount(n);
    store' := store[id := n.(out := Logic(n.kind, n.out, inputs))];
  }

  /** Firing the `t`-th node of the worklist and queueing its targets advances both folds by one. */
  lemma PropagateStep(store: seq<Node>, cur: seq<nat>, t: nat, s: seq<Node>, next: seq<nat>)
    requires StoreOK(store) && IdsIn(store, cur) && t < |cur|
    requires StoreOK(s) && SameButOuts(store, s)
    ensures Run(s, cur[t..]) == Run(Fire(s, cur[t]), cur[t + 1..])
    ensures Enqueue(next, store, cur[t..], false) == Enqueue(Reach(next, s[cur[t]].ports, false), store, cur[t + 1..], false)
  {
    assert cur[t..][0] == cur[t] && cur[t..][1..] == cur[t + 1..];
    assert s[cur[t]].ports == store[cur[t]].ports;
  }
}
