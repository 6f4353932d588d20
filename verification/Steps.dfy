/** What the actions of the mutators do to the stacks and to the objects: what is read afterwards, and from where. */
module Steps {
  import opened Basics
  import opened Objects
  import opened Collector
  import opened Safety
  import FreeList

  /** No node but those in c holds anything else than before. */
  ghost predicate SameBut(h: Heap, h': Heap, c: iset<Node>) {
    forall x :: x !in c ==> Contents(h', x) == Contents(h, x)
  }

  ghost predicate SameStacksBut(s: State, s': State, t: nat) {
    |s'.stacks| == |s.stacks| && forall u :: 0 <= u < |s.stacks| && u != t ==> s'.stacks[u] == s.stacks[u]
  }

  lemma PushDoes(s: State, t: nat, v: Value)
    requires Shapes(s) && Enabled(s, Push(t, v))
    ensures var s' := Next(s, Push(t, v));
            && s'.heap == s.heap && t < |s.stacks| && SameStacksBut(s, s', t)
            && |s'.stacks[t]| == |s.stacks[t]| + 1 && s'.stacks[t][|s.stacks[t]|] == v
            && forall i :: 0 <= i < |s.stacks[t]| ==> s'.stacks[t][i] == s.stacks[t][i]
  {
  }

  lemma PopDoes(s: State, t: nat, k: nat)
    requires Shapes(s) && Enabled(s, Pop(t, k))
    ensures var s' := Next(s, Pop(t, k));
            && s'.heap == s.heap && t < |s.stacks| && SameStacksBut(s, s', t)
            && |s'.stacks[t]| == k <= |s.stacks[t]| && forall i :: 0 <= i < k ==> s'.stacks[t][i] == s.stacks[t][i]
  {
  }

  lemma AssignSlotDoes(s: State, t: nat, i: nat, v: Value)
    requires Shapes(s) && Enabled(s, Assign(Slot(t, i), v))
    ensures var s' := Next(s, Assign(Slot(t, i), v));
            && s'.heap == s.heap && t < |s.stacks| && SameStacksBut(s, s', t) && |s'.stacks[t]| == |s.stacks[t]|
            && i < |s.stacks[t]| && s'.stacks[t][i] == v
            && forall j :: 0 <= j < |s.stacks[t]| && j != i ==> s'.stacks[t][j] == s.stacks[t][j]
  {
    hide ShadeIfMarking;
  }

  lemma AssignCellDoes(s: State, o: nat, i: nat, v: Value)
    requires Shapes(s) && Enabled(s, Assign(Cell(o, i), v))
    ensures var s' := Next(s, Assign(Cell(o, i), v));
            && s'.stacks == s.stacks && SameBut(s.heap, s'.heap, iset{O(o)})
            && |Contents(s'.heap, O(o))| == |Contents(s.heap, O(o))| > i && Contents(s'.heap, O(o))[i] == v
            && forall j :: 0 <= j < |Contents(s.heap, O(o))| && j != i ==> Contents(s'.heap, O(o))[j] == Contents(s.heap, O(o))[j]
  {
    hide ShadeIfMarking, Held, Live;
    var cells := s.heap.buffers[o].cells;
    NotEnd(s, v);
    StoredLive(cells, i, v);
  }

  lemma NotEnd(s: State, v: Value)
    requires Held(s, v)
    ensures !v.End?
  {
  }

  /** A store in front of the End leaves the End where it is. */
  lemma StoredLive(cells: seq<Value>, i: nat, v: Value)
    requires i < LiveCount(cells) && !v.End?
    ensures LiveCount(cells[i := v]) == LiveCount(cells)
    ensures Scanned(Cells(cells[i := v])) == Scanned(Cells(cells))[i := v]
  {
    var n, now := LiveCount(cells), cells[i := v];
    if n < |cells| {
      LiveCountIs(now, n);
    } else {
      assert LiveCount(now) == |now|;
    }
  }

  lemma AssignBehindDoes(s: State, r: nat, v: Value)
    requires Shapes(s) && Enabled(s, Assign(Behind(r), v))
    ensures var s' := Next(s, Assign(Behind(r), v));
            && s'.stacks == s.stacks && SameBut(s.heap, s'.heap, iset{V(r)})
            && Contents(s'.heap, V(r)) == [v]
  {
    hide ShadeIfMarking, Held, Live;
  }

  /** After an array operation a scan sees what is in the new buffer, and nothing else has changed. */
  lemma ResizeDoes(s: State, o: nat, b: Buffer, v: Value)
    requires Shapes(s) && Enabled(s, Resize(o, b, v))
    ensures var s' := Next(s, Resize(o, b, v));
            && s'.stacks == s.stacks && SameBut(s.heap, s'.heap, iset{O(o)}) && Contents(s'.heap, O(o)) == Scanned(b)
  {
    hide ShadeIfMarking, Held, Live, FromOld, Scanned;
  }

  /** The array is still reached, and everything in it is. */
  lemma ResizeReaches(s: State, o: nat, b: Buffer, v: Value)
    requires Shapes(s) && Enabled(s, Resize(o, b, v))
    ensures var s' := Next(s, Resize(o, b, v));
            Live(s', O(o)) && forall w :: w in Scanned(b) && Target(w).Some? ==> Live(s', Target(w).value)
  {
    ResizeDoes(s, o, b, v);
    var s' := Next(s, Resize(o, b, v));
    assert Live(s, O(o));
    hide Enabled, Next, Shapes, Contents;
    SlotsFollow(s, s');
    StillReachable(s.heap, s'.heap, Slots(s), O(o));
    assert Live(s', O(o));
    forall w | w in Scanned(b) && Target(w).Some? ensures Live(s', Target(w).value) {
      StepReachable(s'.heap, Slots(s'), O(o), w);
    }
  }

  lemma SlotsFollow(s: State, s': State)
    requires s'.stacks == s.stacks
    ensures Slots(s') == Slots(s)
  {
    forall w ensures InSlot(s', w) == InSlot(s, w) {}
  }

  /** The way to a node does not depend on what the node holds. */
  lemma StillReachable(h: Heap, h': Heap, roots: iset<Node>, x: Node)
    requires Reachable(h, roots, x) && SameBut(h, h', iset{x})
    ensures Reachable(h', roots, x)
  {
    var p :| IsPath(h, roots, p) && p[|p| - 1] == x;
    var n := First(p, x);
    var q := p[..n + 1];
    forall i | 0 <= i < |q| - 1 ensures Edge(h', q[i], q[i + 1]) {
      assert Edge(h, p[i], p[i + 1]);
      assert p[i] != x;
    }
    assert IsPath(h', roots, q);
  }

  lemma {:induction false} First(p: seq<Node>, x: Node) returns (n: nat)
    requires x in p
    ensures n < |p| && p[n] == x && forall i :: 0 <= i < n ==> p[i] != x
    decreases |p|
  {
    if p[0] == x {
      n := 0;
    } else {
      var m := First(p[1..], x);
      n := m + 1;
    }
  }

  /** A new string: black, without cells, and on top of the stack. */
  lemma NewTextDoes(s: State, t: nat)
    requires Shapes(s) && Enabled(s, NewText(t))
    ensures var s', o := Next(s, NewText(t)), s.olist.next;
            && 0 <= o < |s.heap.buffers| && s'.heap.buffers[o] == Chars && Color(s'.marks, O(o)) == s.gc
            && SameBut(s.heap, s'.heap, iset{O(o)}) && t < |s.stacks| && SameStacksBut(s, s', t)
            && s'.stacks[t] == s.stacks[t] + [Text(Some(o))]
  {
  }

  /** A new array, block or object with the given buffer. */
  lemma NewContainerDoes(s: State, t: nat, k: Kind, b: Buffer)
    requires Shapes(s) && Enabled(s, NewContainer(t, k, b))
    ensures var s', o := Next(s, NewContainer(t, k, b)), s.olist.next;
            && 0 <= o < |s.heap.buffers| && Contents(s'.heap, O(o)) == Scanned(b) && Color(s'.marks, O(o)) == s.gc
            && SameBut(s.heap, s'.heap, iset{O(o)}) && t < |s.stacks| && SameStacksBut(s, s', t)
            && s'.stacks[t] == s.stacks[t] + [Container(k, Some(o))]
  {
    hide FromStack, Scanned;
  }

  /** The top of the stack becomes a reference to what it was. */
  lemma NewVrefDoes(s: State, t: nat)
    requires Shapes(s) && Enabled(s, NewVref(t))
    ensures var s', r := Next(s, NewVref(t)), s.vlist.next;
            && 0 <= r < |s.heap.vvalues| && t < |s.stacks| && |s.stacks[t]| > 0 && SameStacksBut(s, s', t)
            && Contents(s'.heap, V(r)) == [s.stacks[t][|s.stacks[t]| - 1]] && Color(s'.marks, V(r)) == s.gc
            && SameBut(s.heap, s'.heap, iset{V(r)}) && |s'.stacks[t]| == |s.stacks[t]|
            && s'.stacks[t][|s.stacks[t]| - 1] == Ref(r)
            && forall i :: 0 <= i < |s.stacks[t]| - 1 ==> s'.stacks[t][i] == s.stacks[t][i]
  {
  }
}
