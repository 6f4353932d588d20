/** Values, buffers and reachability as the collector of ccclib/src/variable.cpp sees them. */
module Objects {

  import opened Basics

  datatype Kind = Array | Block | Object

  datatype Basic = Number | Date | Flag | Pointer

  /** A VALUE. The constructors follow the order of the type constants: End is below TYPE_NIL; Nil and
      Plain (number, date, flag, pointer) lie below TYPE_GARBAGE and own no oref; Text (binary, string) lies
      up to TYPE_SCALAR; Container (array, block, object) lies below TYPE_REF. */
  datatype Value =
    | End(size: int)
    | Nil
    | Plain(basic: Basic, bits: int)
    | Text(toref: Option<nat>)
    | Container(kind: Kind, oref: Option<nat>)
    | Ref(vref: nat)

  /** What the ptr field of an oref leads to. */
  datatype Buffer = NoBuffer | Cells(cells: seq<Value>) | Chars

  datatype Heap = Heap(buffers: seq<Buffer>, vvalues: seq<Value>)

  /** A node of the object graph: an oref or a vref, by table index. */
  datatype Node = O(o: nat) | V(r: nat)

  /** Number of cells in front of the first End, where the scan of mark stops. */
  function LiveCount(cells: seq<Value>): (n: nat)
    ensures n <= |cells|
    ensures forall i :: 0 <= i < n ==> !cells[i].End?
    ensures n < |cells| ==> cells[n].End?
  {
    if cells == [] || cells[0].End? then 0 else 1 + LiveCount(cells[1..])
  }

  lemma LiveCountIs(cells: seq<Value>, n: nat)
    requires n < |cells| && cells[n].End?
    requires forall i :: 0 <= i < n ==> !cells[i].End?
    ensures LiveCount(cells) == n
  {
  }

  function Scanned(b: Buffer): seq<Value> {
    if b.Cells? then b.cells[..LiveCount(b.cells)] else []
  }

  function Target(v: Value): Option<Node> {
    match v
    case Text(Some(o)) => Some(O(o))
    case Container(_, Some(o)) => Some(O(o))
    case Ref(r) => Some(V(r))
    case _ => None
  }

  /** The values stored in a node. */
  function Contents(h: Heap, x: Node): seq<Value> {
    match x
    case O(o) => if o < |h.buffers| then Scanned(h.buffers[o]) else []
    case V(r) => if r < |h.vvalues| then [h.vvalues[r]] else []
  }

  ghost predicate Edge(h: Heap, x: Node, y: Node) {
    exists v :: v in Contents(h, x) && Target(v) == Some(y)
  }

  ghost predicate IsPath(h: Heap, roots: iset<Node>, p: seq<Node>) {
    && |p| > 0 && p[0] in roots
    && forall i :: 0 <= i < |p| - 1 ==> Edge(h, p[i], p[i + 1])
  }

  /** x can be reached from the roots by following stored values. */
  ghost predicate Reachable(h: Heap, roots: iset<Node>, x: Node) {
    exists p :: IsPath(h, roots, p) && p[|p| - 1] == x
  }

  ghost predicate Closed(h: Heap, c: iset<Node>) {
    forall x, v :: x in c && v in Contents(h, x) && Target(v).Some? ==> Target(v).value in c
  }

  lemma RootReachable(h: Heap, roots: iset<Node>, x: Node)
    requires x in roots
    ensures Reachable(h, roots, x)
  {
    assert IsPath(h, roots, [x]);
  }

  lemma StepReachable(h: Heap, roots: iset<Node>, x: Node, v: Value)
    requires Reachable(h, roots, x) && v in Contents(h, x) && Target(v).Some?
    ensures Reachable(h, roots, Target(v).value)
  {
    var p :| IsPath(h, roots, p) && p[|p| - 1] == x;
    var q := p + [Target(v).value];
    assert Edge(h, x, Target(v).value);
    assert IsPath(h, roots, q);
  }

  /** The reachable nodes are the least closed set that holds the roots. */
  lemma ReachableContained(h: Heap, roots: iset<Node>, c: iset<Node>, x: Node)
    requires roots <= c && Closed(h, c) && Reachable(h, roots, x)
    ensures x in c
  {
    var p :| IsPath(h, roots, p) && p[|p| - 1] == x;
    PathContained(h, roots, c, p, |p| - 1);
  }

  lemma {:induction false} PathContained(h: Heap, roots: iset<Node>, c: iset<Node>, p: seq<Node>, i: nat)
    requires roots <= c && Closed(h, c) && IsPath(h, roots, p) && i < |p|
    ensures p[i] in c
  {
    if i > 0 {
      PathContained(h, roots, c, p, i - 1);
      assert Edge(h, p[i - 1], p[i]);
    }
  }

  ghost function ReachableSet(h: Heap, roots: iset<Node>): iset<Node> {
    iset x | Reachable(h, roots, x)
  }

  lemma ReachableSetClosed(h: Heap, roots: iset<Node>)
    ensures roots <= ReachableSet(h, roots) && Closed(h, ReachableSet(h, roots))
  {
    forall x | x in roots ensures Reachable(h, roots, x) { RootReachable(h, roots, x); }
    forall x, v | Reachable(h, roots, x) && v in Contents(h, x) && Target(v).Some?
      ensures Reachable(h, roots, Target(v).value)
    {
      StepReachable(h, roots, x, v);
    }
  }

  /** A value that may be stored or pushed: it is typed the way the code relies on. Characters are never
      scanned as cells, cells always carry an End, and a vref never holds a ref. */
  ghost predicate Fits(h: Heap, v: Value) {
    match v
    case End(_) => false
    case Text(Some(o)) => o < |h.buffers| && h.buffers[o].Chars?
    case Container(_, Some(o)) =>
      o < |h.buffers| && !h.buffers[o].Chars?
      && (h.buffers[o].Cells? ==> LiveCount(h.buffers[o].cells) < |h.buffers[o].cells|)
    case Ref(r) => r < |h.vvalues| && !h.vvalues[r].Ref?
    case _ => true
  }
}
