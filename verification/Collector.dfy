/** The collector and allocator of ccclib/src/variable.cpp as a state machine.

    Mutator threads and the collector take turns, one action at a time, in any order. Both modes of the
    collector are covered: marking as one uninterrupted action (the default) and marking interleaved with
    the mutators (CCC_MARKSYNC enabled), where loads and stores shade. */
module Collector {
  import opened Basics
  import opened Objects
  import FreeList

  /** Colours and the mark stack. Relative to gc: less is white, equal is black, greater is gray. */
  datatype Marks = Marks(ocolor: seq<int>, vcolor: seq<int>, stack: seq<nat>)

  /** The container mark_lk is scanning, and the index of its next cell. */
  datatype Cursor = NoCursor | At(o: nat, i: nat)

  datatype Phase = Idle | Marking(cursor: Cursor) | Sweeping

  /** stacks[0] is the static stack, the others belong to the threads. */
  datatype State = State(
    heap: Heap, marks: Marks, gc: int,
    olist: FreeList.List, vlist: FreeList.List,
    stacks: seq<seq<Value>>, phase: Phase)

  // ----- colours and shading -----

  function Color(m: Marks, x: Node): int {
    match x
    case O(o) => if o < |m.ocolor| then m.ocolor[o] else 0
    case V(r) => if r < |m.vcolor| then m.vcolor[r] else 0
  }

  predicate NonWhite(m: Marks, gc: int, v: Value) {
    Target(v).Some? ==> Color(m, Target(v).value) >= gc
  }

  /** vartab_shade on anything but a ref. */
  function ShadeFlat(m: Marks, gc: int, v: Value): Marks {
    match v
    case Text(Some(o)) =>
      if o < |m.ocolor| && m.ocolor[o] != gc then m.(ocolor := m.ocolor[o := gc]) else m
    case Container(_, Some(o)) =>
      if o < |m.ocolor| && m.ocolor[o] < gc then m.(ocolor := m.ocolor[o := gc + 1], stack := m.stack + [o]) else m
    case _ => m
  }

  /** vartab_shade. */
  function Shade(h: Heap, m: Marks, gc: int, v: Value): Marks {
    if v.Ref? && v.vref < |h.vvalues| && v.vref < |m.vcolor| then
      var m1 := ShadeFlat(m, gc, h.vvalues[v.vref]);
      m1.(vcolor := m1.vcolor[v.vref := gc])
    else
      ShadeFlat(m, gc, v)
  }

  function ShadeAll(h: Heap, m: Marks, gc: int, vs: seq<Value>): Marks
    decreases |vs|
  {
    if vs == [] then m else ShadeAll(h, Shade(h, m, gc, vs[0]), gc, vs[1..])
  }

  /** The root loop of vartab_mark: the static stack, then every thread stack. */
  function ShadeStacks(h: Heap, m: Marks, gc: int, stacks: seq<seq<Value>>): Marks
    decreases |stacks|
  {
    if stacks == [] then m else ShadeStacks(h, ShadeAll(h, m, gc, stacks[0]), gc, stacks[1..])
  }

  /** During marking: gray is exactly being on the mark stack, and only containers are gray. */
  ghost predicate MarkShape(h: Heap, m: Marks, gc: int) {
    && |m.ocolor| == |h.buffers| && |m.vcolor| == |h.vvalues|
    && (forall o :: 0 <= o < |m.ocolor| ==> m.ocolor[o] <= gc + 1)
    && (forall r :: 0 <= r < |m.vcolor| ==> m.vcolor[r] <= gc)
    && FreeList.Distinct(m.stack)
    && (forall o :: o in m.stack ==> Fits(h, Container(Array, Some(o))))
    && (forall o: nat :: o < |m.ocolor| ==> (m.ocolor[o] == gc + 1 <==> o in m.stack))
  }

  /** v and, for a ref, the value behind it. */
  ghost predicate FitsDeep(h: Heap, v: Value) {
    Fits(h, v) && (v.Ref? ==> Fits(h, h.vvalues[v.vref]))
  }

  /** What one shading changes: its target becomes non-white, nothing turns white, black stays black, and
      whatever turned black has no white successor. */
  ghost predicate Darkens(h: Heap, m: Marks, m': Marks, gc: int) {
    && |m'.ocolor| == |m.ocolor| && |m'.vcolor| == |m.vcolor|
    && m.stack <= m'.stack
    && (forall x :: Color(m, x) >= gc ==> Color(m', x) >= gc)
    && (forall x :: Color(m, x) == gc ==> Color(m', x) == gc)
    && (forall x, v :: Color(m', x) == gc && Color(m, x) != gc && v in Contents(h, x) ==> NonWhite(m', gc, v))
  }

  lemma ShadeFlatDarkens(h: Heap, m: Marks, gc: int, v: Value)
    requires MarkShape(h, m, gc) && Fits(h, v) && !v.Ref?
    ensures var m' := ShadeFlat(m, gc, v);
            MarkShape(h, m', gc) && Darkens(h, m, m', gc) && NonWhite(m', gc, v)
  {
    var m' := ShadeFlat(m, gc, v);
    match v
    case Text(Some(o)) =>
      assert o in m.stack ==> Fits(h, Container(Array, Some(o)));
      assert Contents(h, O(o)) == [];
    case Container(k, Some(o)) =>
      if m'.stack != m.stack {
        assert m'.stack == m.stack + [o];
        assert forall n: nat :: n in m'.stack <==> n in m.stack || n == o;
        assert o !in m.stack;
      }
    case _ =>
  }

  lemma ShadeDarkens(h: Heap, m: Marks, gc: int, v: Value)
    requires MarkShape(h, m, gc) && FitsDeep(h, v)
    ensures var m' := Shade(h, m, gc, v);
            MarkShape(h, m', gc) && Darkens(h, m, m', gc) && NonWhite(m', gc, v)
  {
    if v.Ref? {
      ShadeFlatDarkens(h, m, gc, h.vvalues[v.vref]);
      var m1 := ShadeFlat(m, gc, h.vvalues[v.vref]);
      var m' := Shade(h, m, gc, v);
      assert Contents(h, V(v.vref)) == [h.vvalues[v.vref]];
      assert forall x :: x != V(v.vref) ==> Color(m', x) == Color(m1, x);
    } else {
      ShadeFlatDarkens(h, m, gc, v);
    }
  }

  // ----- roots -----

  ghost predicate InSlot(s: State, v: Value) {
    exists t, i :: 0 <= t < |s.stacks| && 0 <= i < |s.stacks[t]| && s.stacks[t][i] == v
  }

  /** What the mutators hold directly. */
  ghost function Slots(s: State): iset<Node> {
    iset x | exists v :: InSlot(s, v) && Target(v) == Some(x)
  }

  /** The slots, and what the collector itself holds while it marks. */
  ghost function Roots(s: State): iset<Node> {
    iset x |
      || x in Slots(s)
      || (x.O? && x.o in s.marks.stack)
      || (x.O? && s.phase.Marking? && s.phase.cursor.At? && x.o == s.phase.cursor.o)
  }

  ghost predicate Live(s: State, x: Node) {
    Reachable(s.heap, Slots(s), x)
  }

  ghost function Reach(s: State): iset<Node> {
    ReachableSet(s.heap, Roots(s))
  }

  lemma LiveReached(s: State, x: Node)
    requires Live(s, x)
    ensures x in Reach(s)
  {
    var p :| IsPath(s.heap, Slots(s), p) && p[|p| - 1] == x;
    assert IsPath(s.heap, Roots(s), p);
  }

  // ----- actions -----

  /** A place a mutator can write to. */
  datatype Loc = Slot(t: nat, i: nat) | Cell(o: nat, i: nat) | Behind(r: nat)

  datatype Action =
    | Push(t: nat, v: Value)
    | Pop(t: nat, k: nat)
    | Assign(to: Loc, v: Value)
    | Resize(o: nat, cells: Buffer, v: Value)
    | NewText(t: nat)
    | NewContainer(t: nat, kind: Kind, buffer: Buffer)
    | NewVref(t: nat)
    | NewThread
    | OTake(om: FreeList.Move)
    | VTake(vm: FreeList.Move)
    | MarkAll
    | BeginMark
    | PopGray
    | ScanCell
    | EndMark
    | FreeOref(n: nat)
    | FreeVref(n: nat)
    | OGive(om: FreeList.Move)
    | VGive(vm: FreeList.Move)
    | EndSweep

  predicate Taking(m: FreeList.Move) { m.Check? || m.CountDown? }

  predicate Giving(m: FreeList.Move) { m.Append? || m.Advance? || m.CountUp? }

  /** v is stored somewhere a mutator can get at. */
  ghost predicate Stored(s: State, v: Value) {
    exists x :: Live(s, x) && v in Contents(s.heap, x)
  }

  /** v can be copied through operator= or valuecopy, which shade it while marking is on. */
  ghost predicate Held(s: State, v: Value) {
    !v.End? && (Target(v).None? || InSlot(s, v) || Stored(s, v))
  }

  /** v can be copied to the stack without shading: a constant, a stack slot (PUSH), the value behind a ref
      in a stack slot (push_symbol), or, outside the mark phase only, any stored value (push_blkenv). */
  ghost predicate Copyable(s: State, v: Value) {
    && !v.End?
    && (|| Target(v).None?
        || InSlot(s, v)
        || (exists r: nat :: InSlot(s, Ref(r)) && r < |s.heap.vvalues| && s.heap.vvalues[r] == v)
        || (!s.phase.Marking? && Stored(s, v)))
  }

  /** The cells of a new object, copied from the stack by arraycopy. */
  ghost predicate FromStack(s: State, b: Buffer) {
    && !b.Chars?
    && (b.Cells? ==> LiveCount(b.cells) < |b.cells|)
    && forall v :: v in Scanned(b) ==> Target(v).None? || InSlot(s, v)
  }

  /** The cells left by aadd, asize, ains or adel: old cells, NILs, and the value added. */
  ghost predicate FromOld(s: State, o: nat, b: Buffer, v: Value)
    requires o < |s.heap.buffers|
  {
    && !b.Chars?
    && (b.Cells? ==> LiveCount(b.cells) < |b.cells|)
    && forall w :: w in Scanned(b) ==> Target(w).None? || w == v || w in Scanned(s.heap.buffers[o])
  }

  ghost predicate Scanning(s: State, o: nat) {
    s.phase.Marking? && s.phase.cursor.At? && s.phase.cursor.o == o
  }

  ghost predicate Writable(s: State, to: Loc, v: Value) {
    match to
    case Slot(t, i) => t < |s.stacks| && i < |s.stacks[t]|
    case Cell(o, i) => Live(s, O(o)) && o < |s.heap.buffers| && i < |Scanned(s.heap.buffers[o])|
    case Behind(r) => Live(s, V(r)) && r < |s.heap.vvalues| && !v.Ref?
  }

  ghost predicate Enabled(s: State, a: Action) {
    match a
    case Push(t, v) => t < |s.stacks| && Copyable(s, v)
    case Pop(t, k) => 0 < t < |s.stacks| && k <= |s.stacks[t]|
    case Assign(to, v) => Held(s, v) && Writable(s, to, v)
    case Resize(o, b, v) =>
      Live(s, O(o)) && o < |s.heap.buffers| && !s.heap.buffers[o].Chars? && Held(s, v)
      && FromOld(s, o, b, v) && !Scanning(s, o)
    case NewText(t) => 0 < t < |s.stacks| && FreeList.Enabled(s.olist, FreeList.Unlink)
    case NewContainer(t, k, b) =>
      0 < t < |s.stacks| && FreeList.Enabled(s.olist, FreeList.Unlink) && FromStack(s, b)
    case NewVref(t) =>
      0 < t < |s.stacks| && FreeList.Enabled(s.vlist, FreeList.Unlink)
      && |s.stacks[t]| > 0 && !s.stacks[t][|s.stacks[t]| - 1].Ref?
    case NewThread => true
    case OTake(m) => Taking(m) && FreeList.Enabled(s.olist, m)
    case VTake(m) => Taking(m) && FreeList.Enabled(s.vlist, m)
    case MarkAll => s.phase == Idle
    case BeginMark => s.phase == Idle
    case PopGray => s.phase == Marking(NoCursor) && |s.marks.stack| > 0
    case ScanCell => s.phase.Marking? && s.phase.cursor.At?
    case EndMark => s.phase == Marking(NoCursor) && s.marks.stack == []
    case FreeOref(n) =>
      s.phase == Sweeping && FreeList.Enabled(s.olist, FreeList.Claim(n))
      && n < |s.heap.buffers| && Color(s.marks, O(n)) < s.gc
    case FreeVref(n) =>
      s.phase == Sweeping && FreeList.Enabled(s.vlist, FreeList.Claim(n))
      && n < |s.heap.vvalues| && Color(s.marks, V(n)) < s.gc
    case OGive(m) => s.phase == Sweeping && Giving(m) && FreeList.Enabled(s.olist, m)
    case VGive(m) => s.phase == Sweeping && Giving(m) && FreeList.Enabled(s.vlist, m)
    case EndSweep => s.phase == Sweeping && s.olist.release.Resting? && s.vlist.release.Resting?
  }

  function PushOn(stacks: seq<seq<Value>>, t: nat, v: Value): seq<seq<Value>>
    requires t < |stacks|
  {
    stacks[t := stacks[t] + [v]]
  }

  function ShadeIfMarking(s: State, v: Value): Marks {
    if s.phase.Marking? then Shade(s.heap, s.marks, s.gc, v) else s.marks
  }

  /** oref_new once the wait loop is left. */
  ghost function TakeOref(s: State, t: nat, v: Value, b: Buffer): State
    requires t < |s.stacks| && FreeList.Enabled(s.olist, FreeList.Unlink)
    requires s.olist.next < |s.heap.buffers| && s.olist.next < |s.marks.ocolor|
  {
    var n := s.olist.next;
    s.(marks := s.marks.(ocolor := s.marks.ocolor[n := s.gc]),
       heap := s.heap.(buffers := s.heap.buffers[n := b]),
       olist := FreeList.Apply(s.olist, FreeList.Unlink),
       stacks := PushOn(s.stacks, t, v))
  }

  /** The colours left by an uninterrupted mark: what the slots reach is black, the rest keeps its colour. */
  ghost function MarkedColors(s: State): Marks {
    Marks(seq(|s.marks.ocolor|, o requires 0 <= o < |s.marks.ocolor| =>
                if Live(s, O(o)) then s.gc + 1 else s.marks.ocolor[o]),
          seq(|s.marks.vcolor|, r requires 0 <= r < |s.marks.vcolor| =>
                if Live(s, V(r)) then s.gc + 1 else s.marks.vcolor[r]),
          [])
  }

  ghost predicate Shapes(s: State) {
    && |s.marks.ocolor| == |s.heap.buffers| == |s.olist.link|
    && |s.marks.vcolor| == |s.heap.vvalues| == |s.vlist.link|
  }

  ghost function Next(s: State, a: Action): State
    requires Shapes(s) && Enabled(s, a)
  {
    match a
    case Push(t, v) => s.(stacks := PushOn(s.stacks, t, v))
    case Pop(t, k) => s.(stacks := s.stacks[t := s.stacks[t][..k]])
    case Assign(to, v) =>
      var s1 := s.(marks := ShadeIfMarking(s, v));
      (match to
       case Slot(t, i) => s1.(stacks := s.stacks[t := s.stacks[t][i := v]])
       case Cell(o, i) =>
         s1.(heap := s.heap.(buffers := s.heap.buffers[o := Cells(s.heap.buffers[o].cells[i := v])]))
       case Behind(r) => s1.(heap := s.heap.(vvalues := s.heap.vvalues[r := v])))
    case Resize(o, b, v) =>
      s.(marks := ShadeIfMarking(s, v), heap := s.heap.(buffers := s.heap.buffers[o := b]))
    case NewText(t) => TakeOref(s, t, Text(Some(s.olist.next)), Chars)
    case NewContainer(t, k, b) => TakeOref(s, t, Container(k, Some(s.olist.next)), b)
    case NewVref(t) =>
      var n, top := s.vlist.next, |s.stacks[t]| - 1;
      s.(marks := s.marks.(vcolor := s.marks.vcolor[n := s.gc]),
         heap := s.heap.(vvalues := s.heap.vvalues[n := s.stacks[t][top]]),
         vlist := FreeList.Apply(s.vlist, FreeList.Unlink),
         stacks := s.stacks[t := s.stacks[t][top := Ref(n)]])
    case NewThread => s.(stacks := s.stacks + [[]])
    case OTake(m) => s.(olist := FreeList.Apply(s.olist, m))
    case VTake(m) => s.(vlist := FreeList.Apply(s.vlist, m))
    case MarkAll => s.(marks := MarkedColors(s), gc := s.gc + 1, phase := Sweeping)
    case BeginMark =>
      s.(marks := ShadeStacks(s.heap, s.marks, s.gc + 1, s.stacks), gc := s.gc + 1, phase := Marking(NoCursor))
    case PopGray =>
      var o := s.marks.stack[|s.marks.stack| - 1];
      s.(marks := Popped(s.marks, s.gc),
         phase := Marking(if o < |s.heap.buffers| && s.heap.buffers[o].Cells? then At(o, 0) else NoCursor))
    case ScanCell =>
      var o, i := s.phase.cursor.o, s.phase.cursor.i;
      var live := Contents(s.heap, O(o));
      if i < |live| then
        s.(marks := Shade(s.heap, s.marks, s.gc, live[i]), phase := Marking(At(o, i + 1)))
      else
        s.(phase := Marking(NoCursor))
    case EndMark => s.(phase := Sweeping)
    case FreeOref(n) =>
      s.(heap := s.heap.(buffers := s.heap.buffers[n := NoBuffer]),
         olist := FreeList.Apply(s.olist, FreeList.Claim(n)))
    case FreeVref(n) =>
      s.(heap := s.heap.(vvalues := s.heap.vvalues[n := Nil]),
         vlist := FreeList.Apply(s.vlist, FreeList.Claim(n)))
    case OGive(m) => s.(olist := FreeList.Apply(s.olist, m))
    case VGive(m) => s.(vlist := FreeList.Apply(s.vlist, m))
    case EndSweep => s.(phase := Idle)
  }

  /** mark_pop and the blackening of what it returns. */
  function Popped(m: Marks, gc: int): Marks
    requires |m.stack| > 0
  {
    var o := m.stack[|m.stack| - 1];
    m.(stack := m.stack[..|m.stack| - 1],
       ocolor := if o < |m.ocolor| then m.ocolor[o := gc] else m.ocolor)
  }
}
