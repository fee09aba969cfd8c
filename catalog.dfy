/**
 * The node catalog: the seven node variants, their footprints and port layouts, the
 * logic rule each applies to its ordered 0/1 inputs, and the interactive action.
 */
module Catalog {
  import opened Geometry

  datatype Kind = InputNode | OutputNode | AndGate | NandGate | OrGate | XorGate | NotGate

  /** A port is an input (marker `i`) or an output (marker `o`). */
  datatype Dir = InDir | OutDir

  function DirCell(d: Dir): Cell
  {
    if d == InDir then In else Out
  }

  /** A port is named by the arena index of its node and its position in that node's port list. */
  datatype PortRef = PortRef(node: nat, index: nat)

  /** A committed path entry: `null`, or a reference into the arena of path objects. */
  datatype PathRef = NullPath | PathObj(id: nat)

  datatype Port = Port(name: string, offset: Pos, dir: Dir, connections: seq<PortRef>, paths: seq<PathRef>)

  /**
   * A node object. `typeName` is the variant's type text, `shape` the footprint mask
   * (`height` rows of `width` cells), `out` the current output and `charSet` the
   * display character set an Output node cycles through.
   */
  datatype Node = Node(kind: Kind, typeName: string, name: string, pos: Pos, width: nat, height: nat,
                       shape: seq<seq<Cell>>, out: int, charSet: nat, ports: seq<Port>)

  datatype PortSpec = PortSpec(name: string, offset: Pos, dir: Dir)

  function Width(k: Kind): nat
  {
    match k
    case InputNode => 3
    case OutputNode => 3
    case NotGate => 3
    case _ => 5
  }

  function Height(k: Kind): nat
  {
    Width(k)
  }

  function TypeName(k: Kind): string
  {
    match k
    case InputNode => "Input node"
    case OutputNode => "Output"
    case AndGate => "And gate"
    case NandGate => "Nand gate"
    case OrGate => "Or gate"
    case XorGate => "Xor gate"
    case NotGate => "Not gate"
  }

  function DefaultName(k: Kind): string
  {
    match k
    case InputNode => "I"
    case OutputNode => "O"
    case AndGate => "A"
    case NandGate => "n"
    case OrGate => "O"
    case XorGate => "X"
    case NotGate => "N"
  }

  /** The ports each variant's constructor creates, in creation order. */
  function Layout(k: Kind): seq<PortSpec>
  {
    match k
    case InputNode => [PortSpec("outPort", Pos(2, 1), OutDir)]
    case OutputNode => [PortSpec("inPort", Pos(0, 1), InDir), PortSpec("outPort", Pos(2, 1), OutDir)]
    case NotGate => [PortSpec("inPort", Pos(0, 1), InDir), PortSpec("outPort", Pos(2, 1), OutDir)]
    case _ => [PortSpec("inPort1", Pos(0, 1), InDir), PortSpec("inPort2", Pos(0, 3), InDir),
               PortSpec("outPort", Pos(4, 2), OutDir)]
  }

  /** The number of input ports of a variant, hence the length of its input vector. */
  function Arity(k: Kind): nat
  {
    match k
    case InputNode => 0
    case OutputNode => 1
    case NotGate => 1
    case _ => 2
  }

  function InCount(ports: seq<Port>): nat
  {
    if ports == [] then 0 else (if ports[0].dir == InDir then 1 else 0) + InCount(ports[1..])
  }

  predicate IsBit(v: int)
  {
    v == 0 || v == 1
  }

  predicate Bits(s: seq<int>)
  {
    forall k :: 0 <= k < |s| ==> IsBit(s[k])
  }

  /**
   * The invariant every node object keeps: the footprint, type text and port layout of its
   * variant (connections and paths vary), a `height` x `width` shape, a 0/1 output and one of the
   * two character sets.
   */
  predicate WellFormed(n: Node)
  {
    && n.width == Width(n.kind) && n.height == Height(n.kind)
    && n.typeName == TypeName(n.kind)
    && |n.shape| == n.height
    && (forall j :: 0 <= j < |n.shape| ==> |n.shape[j]| == n.width)
    && |n.ports| == |Layout(n.kind)|
    && (forall q :: 0 <= q < |n.ports| ==>
          n.ports[q].name == Layout(n.kind)[q].name
          && n.ports[q].offset == Layout(n.kind)[q].offset
          && n.ports[q].dir == Layout(n.kind)[q].dir)
    && Solid(n.shape)
    && IsBit(n.out)
    && n.charSet < 2
  }

  /** No cell of the shape is the empty-cell marker: a drawn node covers every point of its footprint. */
  predicate Solid(shape: seq<seq<Cell>>)
  {
    forall j, i {:trigger Filled(shape[j][i])} :: 0 <= j < |shape| && 0 <= i < |shape[j]| ==> Filled(shape[j][i])
  }

  predicate Filled(c: Cell)
  {
    c != Empty
  }

  /** A well-formed node has exactly `Arity(kind)` input ports. */
  lemma {:induction false} ArityIsInCount(n: Node)
    requires WellFormed(n)
    ensures InCount(n.ports) == Arity(n.kind)
  {
    var ps := n.ports;
    if |ps| == 1 {
      assert InCount(ps[1..]) == 0;
    } else if |ps| == 2 {
      assert InCount(ps[2..]) == 0;
      assert InCount(ps[1..]) == (if ps[1].dir == InDir then 1 else 0) + InCount(ps[1..][1..]);
      assert ps[1..][1..] == ps[2..];
    } else {
      assert |ps| == 3;
      assert InCount(ps[3..]) == 0;
      assert ps[2..][1..] == ps[3..];
      assert InCount(ps[2..]) == (if ps[2].dir == InDir then 1 else 0) + InCount(ps[2..][1..]);
      assert ps[1..][1..] == ps[2..];
      assert InCount(ps[1..]) == (if ps[1].dir == InDir then 1 else 0) + InCount(ps[1..][1..]);
    }
  }

  /**
   * The logic rule of each variant, applied to the ordered input vector; `out` is the
   * current output, which an Input node keeps (its rule is the base no-op).
   */
  function Logic(k: Kind, out: int, inputs: seq<int>): (r: int)
    requires |inputs| == Arity(k)
    ensures k == InputNode ==> r == out
    ensures k == OutputNode ==> r == inputs[0]
    ensures k == NotGate && Bits(inputs) ==> (r == 1 <==> inputs[0] == 0)
    ensures k == AndGate && Bits(inputs) ==> (r == 1 <==> inputs[0] == 1 && inputs[1] == 1)
    ensures k == NandGate && Bits(inputs) ==> (r == 1 <==> !(inputs[0] == 1 && inputs[1] == 1))
    ensures k == OrGate && Bits(inputs) ==> (r == 1 <==> inputs[0] == 1 || inputs[1] == 1)
    ensures k == XorGate && Bits(inputs) ==> (r == 1 <==> inputs[0] != inputs[1])
    ensures Bits(inputs) && (k == InputNode ==> IsBit(out)) ==> IsBit(r)
  {
    match k
    case InputNode => out
    case OutputNode => inputs[0]
    case NotGate => 1 - inputs[0]
    case AndGate => if inputs[0] + inputs[1] == 2 then 1 else 0
    case NandGate => if inputs[0] + inputs[1] == 2 then 0 else 1
    case OrGate => if inputs[0] + inputs[1] > 0 then 1 else 0
    case XorGate => if inputs[0] + inputs[1] == 1 then 1 else 0
  }

  /** Nand is the negation of And on every input vector, not only on 0/1 inputs. */
  lemma NandNegatesAnd(inputs: seq<int>)
    requires |inputs| == 2
    ensures Logic(NandGate, 0, inputs) == 1 - Logic(AndGate, 0, inputs)
  {
  }

  /**
   * The interactive action: an Input node flips its output, an Output node moves to the
   * next of its two character sets, every other node does nothing.
   */
  function Action(n: Node): (r: Node)
    ensures r.kind == n.kind && r.ports == n.ports && r.shape == n.shape && r.pos == n.pos
    ensures r.name == n.name && r.width == n.width && r.height == n.height
    ensures n.kind == InputNode ==> r.out == 1 - n.out && r.charSet == n.charSet
    ensures n.kind == OutputNode ==> r.out == n.out && r.charSet == (n.charSet + 1) % 2
    ensures n.kind != InputNode && n.kind != OutputNode ==> r == n
    ensures WellFormed(n) ==> WellFormed(r)
  {
    match n.kind
    case InputNode => n.(out := 1 - n.out)
    case OutputNode => n.(charSet := (n.charSet + 1) % 2)
    case _ => n
  }

  /** Applying the action twice restores a well-formed node. */
  lemma ActionTwice(n: Node)
    requires WellFormed(n)
    ensures Action(Action(n)) == n
  {
  }

  predicate OnBorder(w: int, h: int, i: int, j: int)
  {
    i == 0 || i == w - 1 || j == 0 || j == h - 1
  }

  /** Builds the blank footprint mask: walls along the border, body inside. */
  method InitShape(w: nat, h: nat) returns (shape: seq<seq<Cell>>)
    ensures |shape| == h
    ensures forall j :: 0 <= j < h ==> |shape[j]| == w
    ensures forall j, i :: 0 <= j < h && 0 <= i < w ==>
              shape[j][i] == (if OnBorder(w, h, i, j) then Wall else Body)
  {
    shape := [];
    var j := 0;
    while j < h
      invariant 0 <= j <= h && |shape| == j
      invariant forall jj :: 0 <= jj < j ==> |shape[jj]| == w
      invariant forall jj, i :: 0 <= jj < j && 0 <= i < w ==>
                  shape[jj][i] == (if OnBorder(w, h, i, jj) then Wall else Body)
    {
      var row: seq<Cell> := [];
      var i := 0;
      while i < w
        invariant 0 <= i <= w && |row| == i
        invariant forall ii :: 0 <= ii < i ==> row[ii] == (if OnBorder(w, h, ii, j) then Wall else Body)
      {
        var c := Body;
        if i == 0 || i == w - 1 {
          c := Wall;
        } else if j == 0 || j == h - 1 {
          c := Wall;
        }
        row := row + [c];
        i := i + 1;
      }
      shape := shape + [row];
      j := j + 1;
    }
  }

  predicate ShapeFits(shape: seq<seq<Cell>>, w: nat, h: nat)
  {
    |shape| == h && forall j :: 0 <= j < h ==> |shape[j]| == w
  }

  /** `shape` with cell `(i, j)` replaced by `c`. */
  function Write(shape: seq<seq<Cell>>, i: nat, j: nat, c: Cell): (r: seq<seq<Cell>>)
    requires j < |shape| && i < |shape[j]|
    ensures |r| == |shape| && forall jj :: 0 <= jj < |r| ==> |r[jj]| == |shape[jj]|
    ensures forall jj, ii :: 0 <= jj < |r| && 0 <= ii < |r[jj]| ==>
              r[jj][ii] == if jj == j && ii == i then c else shape[jj][ii]
  {
    shape[j := shape[j][i := c]]
  }

  /** Sets the name and writes its first character at the centre of the shape. */
  function SetName(n: Node, name: string): (r: Node)
    requires |name| > 0 && n.width > 0 && ShapeFits(n.shape, n.width, n.height) && n.height > 0
    ensures r == n.(name := name, shape := r.shape)
    ensures ShapeFits(r.shape, n.width, n.height)
    ensures forall j, i :: 0 <= j < n.height && 0 <= i < n.width ==>
              r.shape[j][i] == if (i, j) == (n.width / 2, n.height / 2) then CharCell(name[0]) else n.shape[j][i]
  {
    n.(shape := Write(n.shape, n.width / 2, n.height / 2, CharCell(name[0])), name := name)
  }

  /** Appends an unconnected port and writes its marker into the shape. */
  function CreatePort(n: Node, s: PortSpec): (r: Node)
    requires ShapeFits(n.shape, n.width, n.height)
    requires 0 <= s.offset.x < n.width && 0 <= s.offset.y < n.height
    ensures r == n.(ports := r.ports, shape := r.shape)
    ensures r.ports == n.ports + [Port(s.name, s.offset, s.dir, [], [])]
    ensures ShapeFits(r.shape, n.width, n.height)
    ensures forall j, i :: 0 <= j < n.height && 0 <= i < n.width ==>
              r.shape[j][i] == if Pos(i, j) == s.offset then DirCell(s.dir) else n.shape[j][i]
  {
    n.(ports := n.ports + [Port(s.name, s.offset, s.dir, [], [])],
       shape := Write(n.shape, s.offset.x, s.offset.y, DirCell(s.dir)))
  }

  /** The port of a layout (at most three ports, the last written winning) at offset `p`, if any. */
  function PortAt(layout: seq<PortSpec>, p: Pos): Option<Dir>
  {
    if |layout| > 2 && layout[2].offset == p then Some(layout[2].dir)
    else if |layout| > 1 && layout[1].offset == p then Some(layout[1].dir)
    else if |layout| > 0 && layout[0].offset == p then Some(layout[0].dir)
    else None
  }

  /**
   * The cell of a fresh node's shape at `(i, j)`: a port marker at each port offset,
   * the name glyph at the centre, and otherwise wall on the border and body inside.
   */
  function LayoutCell(k: Kind, i: int, j: int): Cell
  {
    match PortAt(Layout(k), Pos(i, j))
    case Some(d) => DirCell(d)
    case None =>
      if (i, j) == (Width(k) / 2, Height(k) / 2) then CharCell(DefaultName(k)[0])
      else if OnBorder(Width(k), Height(k), i, j) then Wall
      else Body
  }

  /** The base node constructor: blank shape, the name glyph at the centre, no ports. */
  method NewBaseNode(k: Kind) returns (n: Node)
    ensures n.kind == k && n.typeName == TypeName(k) && n.name == DefaultName(k)
    ensures n.pos == Pos(0, 0) && n.out == 0 && n.charSet == 0 && n.ports == []
    ensures n.width == Width(k) && n.height == Height(k) && ShapeFits(n.shape, n.width, n.height)
    ensures forall j, i :: 0 <= j < n.height && 0 <= i < n.width ==>
              n.shape[j][i] == if (i, j) == (Width(k) / 2, Height(k) / 2) then CharCell(DefaultName(k)[0])
                               else if OnBorder(Width(k), Height(k), i, j) then Wall else Body
  {
    var w, h := Width(k), Height(k);
    var shape := InitShape(w, h);
    n := Node(k, TypeName(k), "", Pos(0, 0), w, h, shape, 0, 0, []);
    n := SetName(n, DefaultName(k));
  }

  /**
   * A node as the variant's constructor leaves it, wherever it is: the variant's layout,
   * its type text and default name, output 0 and the first character set, no connections
   * and no paths, and the shape of `LayoutCell`.
   */
  predicate Blank(n: Node, k: Kind)
  {
    && WellFormed(n)
    && n.kind == k && n.typeName == TypeName(k) && n.name == DefaultName(k)
    && n.out == 0 && n.charSet == 0
    && (forall q :: 0 <= q < |n.ports| ==> n.ports[q].connections == [] && n.ports[q].paths == [])
    && (forall j, i :: 0 <= j < n.height && 0 <= i < n.width ==> n.shape[j][i] == LayoutCell(k, i, j))
  }

  /** Appends the unconnected ports of `layout` in order, each writing its marker into the shape. */
  method AddPorts(n: Node, layout: seq<PortSpec>) returns (r: Node)
    requires 0 < |layout| <= 3 && ShapeFits(n.shape, n.width, n.height) && n.ports == []
    requires forall q :: 0 <= q < |layout| ==> 0 <= layout[q].offset.x < n.width && 0 <= layout[q].offset.y < n.height
    ensures r == n.(ports := r.ports, shape := r.shape) && ShapeFits(r.shape, n.width, n.height)
    ensures |r.ports| == |layout|
    ensures forall q :: 0 <= q < |layout| ==> r.ports[q] == Port(layout[q].name, layout[q].offset, layout[q].dir, [], [])
    ensures forall j, i :: 0 <= j < n.height && 0 <= i < n.width ==>
              r.shape[j][i] == match PortAt(layout, Pos(i, j)) case Some(d) => DirCell(d) case None => n.shape[j][i]
  {
    r := CreatePort(n, layout[0]);
    ghost var one := r;
    ghost var two := r;
    if |layout| > 1 {
      r := CreatePort(r, layout[1]);
      two := r;
    }
    if |layout| > 2 {
      r := CreatePort(r, layout[2]);
    }
    forall j, i | 0 <= j < n.height && 0 <= i < n.width
      ensures r.shape[j][i] == match PortAt(layout, Pos(i, j)) case Some(d) => DirCell(d) case None => n.shape[j][i]
    {
      assert one.shape[j][i] == if Pos(i, j) == layout[0].offset then DirCell(layout[0].dir) else n.shape[j][i];
      assert two.shape[j][i] == if |layout| > 1 && Pos(i, j) == layout[1].offset then DirCell(layout[1].dir) else one.shape[j][i];
    }
  }

  /** Builds a fresh, unplaced node of the given variant. */
  method CreateNode(k: Kind) returns (n: Node)
    ensures Blank(n, k) && n.pos == Pos(0, 0)
  {
    n := NewBaseNode(k);
    n := AddPorts(n, Layout(k));
  }
}
