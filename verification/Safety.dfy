/** What every action of the collector machine keeps, and what holds in every run from vartab_ini on. */
module Safety {
  import opened Basics
  import opened Objects
  import opened Collector
  import FreeList

  ghost predicate NodeAllocated(s: State, x: Node) {
    match x
    case O(o) => FreeList.Allocated(s.olist, o)
    case V(r) => FreeList.Allocated(s.vlist, r)
  }

  ghost predicate ContentsFit(h: Heap, x: Node) {
    forall v :: v in Contents(h, x) ==> Fits(h, v)
  }

  /** Everything the roots reach is allocated and typed. */
  ghost predicate Grounded(s: State) {
    && (forall v :: InSlot(s, v) ==> Fits(s.heap, v))
    && (forall x :: x in Reach(s) ==> NodeAllocated(s, x) && ContentsFit(s.heap, x))
  }

  ghost predicate ContentsNonWhite(h: Heap, m: Marks, gc: int, x: Node) {
    forall v :: v in Contents(h, x) ==> NonWhite(m, gc, v)
  }

  /** The tri-colour invariant of interleaved marking. */
  ghost predicate TriColor(s: State)
    requires s.phase.Marking?
  {
    && MarkShape(s.heap, s.marks, s.gc)
    && (forall v :: InSlot(s, v) ==> NonWhite(s.marks, s.gc, v))
    && (forall x :: x in Reach(s) && Color(s.marks, x) == s.gc && !(x.O? && Scanning(s, x.o)) ==>
          ContentsNonWhite(s.heap, s.marks, s.gc, x))
    && (s.phase.cursor.At? ==> CursorOk(s, s.phase.cursor.o, s.phase.cursor.i))
  }

  /** The cells behind the scan cursor are non-white. */
  ghost predicate CursorOk(s: State, o: nat, i: nat) {
    var cells := Contents(s.heap, O(o));
    && Fits(s.heap, Container(Array, Some(o)))
    && Color(s.marks, O(o)) == s.gc
    && i <= |cells|
    && forall k :: 0 <= k < i ==> NonWhite(s.marks, s.gc, cells[k])
  }

  /** From the end of one mark to the start of the next: what is reachable is black. */
  ghost predicate Settled(s: State) {
    && s.marks.stack == []
    && (forall x :: Color(s.marks, x) <= s.gc)
    && (forall x :: x in Reach(s) ==> Color(s.marks, x) == s.gc)
  }

  ghost predicate Inv(s: State) {
    && Shapes(s) && FreeList.Sound(s.olist) && FreeList.Sound(s.vlist) && s.gc >= 0
    && Grounded(s)
    && (if s.phase.Marking? then TriColor(s) else Settled(s))
  }

  /** No action makes anything reachable but the nodes in `born`. */
  lemma ReachGrows(s: State, s': State, born: iset<Node>)
    requires Roots(s') <= Reach(s) + born
    requires Closed(s'.heap, Reach(s) + born)
    ensures Reach(s') <= Reach(s) + born
  {
    forall x | x in Reach(s') ensures x in Reach(s) + born {
      ReachableContained(s'.heap, Roots(s'), Reach(s) + born, x);
    }
  }

  ghost predicate In(a: iset<Node>, v: Value) {
    Target(v).Some? ==> Target(v).value in a
  }

  /** v may be written into the state s': it fits, and what it points to was reachable or is just born. */
  ghost predicate Welcome(s: State, s': State, born: iset<Node>, v: Value) {
    Fits(s'.heap, v) && In(Reach(s) + born, v)
  }

  /** What all mutator actions have in common, apart from colours. */
  ghost predicate Moves(s: State, s': State, born: iset<Node>) {
    && (forall v :: InSlot(s', v) ==> Welcome(s, s', born, v))
    && (forall o :: o in s'.marks.stack ==> O(o) in Reach(s))
    && s'.phase == s.phase
    && (forall x :: x in Reach(s) + born ==> NodeAllocated(s', x))
    && (forall x, v :: x in Reach(s) + born && v in Contents(s'.heap, x) ==> Welcome(s, s', born, v))
  }

  /** Marking: each value in place is one the node had, or is non-white. */
  ghost predicate Shades(s: State, s': State, born: iset<Node>)
    requires s.phase.Marking?
  {
    && MarkShape(s'.heap, s'.marks, s.gc)
    && (forall v :: InSlot(s', v) ==> NonWhite(s'.marks, s.gc, v))
    && (forall x :: Color(s.marks, x) >= s.gc ==> Color(s'.marks, x) >= s.gc)
    && (forall x :: x in Reach(s) + born && Color(s'.marks, x) == s.gc ==>
          (x in Reach(s) && Color(s.marks, x) == s.gc) || ContentsNonWhite(s'.heap, s'.marks, s.gc, x))
    && (forall x, v :: x in Reach(s) && v in Contents(s'.heap, x) ==>
          v in Contents(s.heap, x) || NonWhite(s'.marks, s.gc, v))
    && (s.phase.cursor.At? ==> CursorOk(s', s.phase.cursor.o, s.phase.cursor.i))
  }

  /** Not marking: a changed colour is black. */
  ghost predicate Blackens(s: State, s': State, born: iset<Node>) {
    && s'.marks.stack == []
    && (forall x :: Color(s'.marks, x) == Color(s.marks, x) || Color(s'.marks, x) == s.gc)
    && (forall x :: x in born ==> Color(s'.marks, x) == s.gc)
  }

  ghost predicate Mutates(s: State, s': State, born: iset<Node>) {
    && Shapes(s') && FreeList.Sound(s'.olist) && FreeList.Sound(s'.vlist)
    && s'.gc == s.gc
    && Moves(s, s', born)
    && (if s.phase.Marking? then Shades(s, s', born) else Blackens(s, s', born))
  }

  lemma MutatesGrounds(s: State, s': State, born: iset<Node>)
    requires Moves(s, s', born)
    requires s.phase.Marking? && s.phase.cursor.At? ==> O(s.phase.cursor.o) in Reach(s)
    ensures Reach(s') <= Reach(s) + born
    ensures Grounded(s')
  {
    var a := Reach(s) + born;
    forall x | x in Roots(s') ensures x in a {
      if x in Slots(s') {
        var v :| InSlot(s', v) && Target(v) == Some(x);
        assert Welcome(s, s', born, v);
      }
    }
    assert Closed(s'.heap, a) by {
      forall x, v | x in a && v in Contents(s'.heap, x) && Target(v).Some? ensures Target(v).value in a {
        assert Welcome(s, s', born, v);
      }
    }
    ReachGrows(s, s', born);
    forall x | x in Reach(s') ensures ContentsFit(s'.heap, x) {
      forall v | v in Contents(s'.heap, x) ensures Fits(s'.heap, v) {
        assert Welcome(s, s', born, v);
      }
    }
  }

  lemma ShadesKeeps(s: State, s': State, born: iset<Node>)
    requires s.phase.Marking? && s'.phase == s.phase && s'.gc == s.gc && TriColor(s) && Shades(s, s', born)
    requires Reach(s') <= Reach(s) + born
    ensures TriColor(s')
  {
    hide Reach, MarkShape;
    forall x | x in Reach(s') && Color(s'.marks, x) == s.gc && !(x.O? && Scanning(s', x.o))
      ensures ContentsNonWhite(s'.heap, s'.marks, s.gc, x)
    {
      if x in Reach(s) && Color(s.marks, x) == s.gc {
        assert ContentsNonWhite(s.heap, s.marks, s.gc, x);
        assert x.O? ==> Scanning(s, x.o) == Scanning(s', x.o);
      }
    }
  }

  lemma MutatesKeeps(s: State, s': State, born: iset<Node>)
    requires Inv(s) && Mutates(s, s', born)
    ensures Inv(s') && Reach(s') <= Reach(s) + born
  {
    ReachableSetClosed(s.heap, Roots(s));
    MutatesGrounds(s, s', born);
    if s.phase.Marking? {
      ShadesKeeps(s, s', born);
    } else {
      assert Settled(s');
    }
  }

  // ----- mutator actions -----

  lemma SlotReached(s: State, v: Value)
    requires InSlot(s, v)
    ensures In(Reach(s), v)
  {
    if Target(v).Some? {
      RootReachable(s.heap, Roots(s), Target(v).value);
    }
  }

  lemma ContentReached(s: State, x: Node, v: Value)
    requires Inv(s) && x in Reach(s) && v in Contents(s.heap, x)
    ensures Fits(s.heap, v) && In(Reach(s), v)
  {
    assert ContentsFit(s.heap, x);
    if Target(v).Some? {
      StepReachable(s.heap, Roots(s), x, v);
    }
  }

  /** Whatever a mutator may copy fits and is reachable. */
  lemma HeldWelcome(s: State, v: Value)
    requires Inv(s) && (Held(s, v) || Copyable(s, v))
    ensures FitsDeep(s.heap, v) && In(Reach(s), v)
  {
    if Target(v).Some? {
      if InSlot(s, v) {
        SlotReached(s, v);
      } else if Stored(s, v) {
        var x :| Live(s, x) && v in Contents(s.heap, x);
        LiveReached(s, x);
        ContentReached(s, x, v);
      } else {
        var r: nat :| InSlot(s, Ref(r)) && r < |s.heap.vvalues| && s.heap.vvalues[r] == v;
        SlotReached(s, Ref(r));
        ContentReached(s, V(r), v);
      }
      if v.Ref? {
        assert v in [v];
        ContentReached(s, V(v.vref), s.heap.vvalues[v.vref]);
      }
    }
  }

  /** Raw copies to the stack are non-white, although nothing shades them. */
  lemma CopyableNonWhite(s: State, v: Value)
    requires Inv(s) && s.phase.Marking? && Copyable(s, v)
    ensures NonWhite(s.marks, s.gc, v)
  {
    if Target(v).Some? && !InSlot(s, v) {
      var r: nat :| InSlot(s, Ref(r)) && r < |s.heap.vvalues| && s.heap.vvalues[r] == v;
      SlotReached(s, Ref(r));
      assert NonWhite(s.marks, s.gc, Ref(r));
      assert ContentsNonWhite(s.heap, s.marks, s.gc, V(r));
      assert v in Contents(s.heap, V(r));
    }
  }

  /** Nothing happens to the heap, the colours or the allocated cells. */
  ghost predicate OnlyStacks(s: State, s': State) {
    && s'.heap == s.heap && s'.marks == s.marks && s'.gc == s.gc && s'.phase == s.phase
    && s'.olist == s.olist && s'.vlist == s.vlist
    && forall v :: InSlot(s', v) ==> InSlot(s, v) || (FitsDeep(s.heap, v) && In(Reach(s), v) && (s.phase.Marking? ==> NonWhite(s.marks, s.gc, v)))
  }

  lemma OnlyStacksKeeps(s: State, s': State)
    requires Inv(s) && OnlyStacks(s, s')
    ensures Inv(s') && Reach(s') <= Reach(s)
  {
    hide Reachable, FreeList.Holds;
    forall v | InSlot(s', v) ensures Welcome(s, s', iset{}, v) {
      if InSlot(s, v) { SlotReached(s, v); }
    }
    forall x, v | x in Reach(s) && v in Contents(s'.heap, x) ensures Welcome(s, s', iset{}, v) {
      ContentReached(s, x, v);
    }
    ReachableSetClosed(s.heap, Roots(s));
    assert Mutates(s, s', iset{});
    MutatesKeeps(s, s', iset{});
  }

  lemma PushKeeps(s: State, t: nat, v: Value)
    requires Inv(s) && Enabled(s, Push(t, v))
    ensures Inv(Next(s, Push(t, v))) && Reach(Next(s, Push(t, v))) <= Reach(s)
  {
    HeldWelcome(s, v);
    if s.phase.Marking? { CopyableNonWhite(s, v); }
    var s' := Next(s, Push(t, v));
    forall w | InSlot(s', w) ensures InSlot(s, w) || w == v {
      var u, i :| 0 <= u < |s'.stacks| && 0 <= i < |s'.stacks[u]| && s'.stacks[u][i] == w;
      assert i < |s.stacks[u]| ==> s.stacks[u][i] == w;
    }
    OnlyStacksKeeps(s, s');
  }

  lemma PopKeeps(s: State, t: nat, k: nat)
    requires Inv(s) && Enabled(s, Pop(t, k))
    ensures Inv(Next(s, Pop(t, k))) && Reach(Next(s, Pop(t, k))) <= Reach(s)
  {
    var s' := Next(s, Pop(t, k));
    forall w | InSlot(s', w) ensures InSlot(s, w) {
      var u, i :| 0 <= u < |s'.stacks| && 0 <= i < |s'.stacks[u]| && s'.stacks[u][i] == w;
      assert s.stacks[u][i] == w;
    }
    OnlyStacksKeeps(s, s');
  }

  lemma NewThreadKeeps(s: State)
    requires Inv(s)
    ensures Inv(Next(s, NewThread)) && Reach(Next(s, NewThread)) <= Reach(s)
  {
    var s' := Next(s, NewThread);
    forall w | InSlot(s', w) ensures InSlot(s, w) {
      var u, i :| 0 <= u < |s'.stacks| && 0 <= i < |s'.stacks[u]| && s'.stacks[u][i] == w;
      assert s.stacks[u][i] == w;
    }
    OnlyStacksKeeps(s, s');
  }

  lemma ShadePushes(h: Heap, m: Marks, gc: int, v: Value, o: nat)
    requires o in Shade(h, m, gc, v).stack && Fits(h, v)
    ensures o in m.stack || Target(v) == Some(O(o)) || (v.Ref? && Target(h.vvalues[v.vref]) == Some(O(o)))
  {
  }

  /** A value without an oref or vref. */
  predicate Flat(v: Value) { Target(v).None? && !v.End? }

  /** Each value a node holds after a write is one it held before, the value written, or a flat one. */
  ghost predicate ContentsFrom(s: State, s': State, v: Value) {
    forall x, w :: w in Contents(s'.heap, x) ==> w in Contents(s.heap, x) || w == v || Flat(w)
  }

  ghost predicate SlotsFrom(s: State, s': State, v: Value) {
    forall w :: InSlot(s', w) ==> InSlot(s, w) || w == v
  }

  ghost predicate StillFit(h: Heap, h': Heap) {
    forall w :: Fits(h, w) ==> Fits(h', w)
  }

  ghost predicate CursorCells(s: State, s': State, v: Value, o: nat) {
    var was, now := Contents(s.heap, O(o)), Contents(s'.heap, O(o));
    |now| == |was| && forall k :: 0 <= k < |was| ==> now[k] == was[k] || now[k] == v
  }

  /** v, shaded if marking is on, is written over one place; nothing else is stored anew. */
  ghost predicate Writes(s: State, s': State, v: Value) {
    && s'.marks == ShadeIfMarking(s, v) && s'.gc == s.gc && s'.phase == s.phase
    && s'.olist == s.olist && s'.vlist == s.vlist
    && |s'.heap.buffers| == |s.heap.buffers| && |s'.heap.vvalues| == |s.heap.vvalues|
    && StillFit(s.heap, s'.heap) && SlotsFrom(s, s', v) && ContentsFrom(s, s', v)
    && (s.phase.Marking? && s.phase.cursor.At? ==> CursorCells(s, s', v, s.phase.cursor.o))
  }

  lemma SlotWelcome(s: State, s': State, v: Value, w: Value)
    requires Grounded(s) && StillFit(s.heap, s'.heap) && SlotsFrom(s, s', v) && InSlot(s', w)
    requires Fits(s.heap, v) && In(Reach(s), v)
    ensures Welcome(s, s', iset{}, w)
  {
    if InSlot(s, w) { SlotReached(s, w); }
  }

  lemma ContentWelcome(s: State, s': State, v: Value, x: Node, w: Value)
    requires Inv(s) && StillFit(s.heap, s'.heap) && ContentsFrom(s, s', v)
    requires x in Reach(s) && w in Contents(s'.heap, x)
    requires Fits(s.heap, v) && In(Reach(s), v)
    ensures Welcome(s, s', iset{}, w)
  {
    assert w in Contents(s.heap, x) || w == v || Flat(w);
    if w in Contents(s.heap, x) { ContentReached(s, x, w); }
  }

  lemma ShadedStackReached(s: State, v: Value, o: nat)
    requires Inv(s) && FitsDeep(s.heap, v) && In(Reach(s), v) && o in ShadeIfMarking(s, v).stack
    ensures O(o) in Reach(s)
  {
    ReachableSetClosed(s.heap, Roots(s));
    if o !in s.marks.stack {
      ShadePushes(s.heap, s.marks, s.gc, v, o);
      if v.Ref? { ContentReached(s, V(v.vref), s.heap.vvalues[v.vref]); }
    }
  }

  lemma WritesMoves(s: State, s': State, v: Value)
    requires Inv(s) && Writes(s, s', v) && FitsDeep(s.heap, v) && In(Reach(s), v)
    ensures Moves(s, s', iset{})
  {
    forall w | InSlot(s', w) ensures Welcome(s, s', iset{}, w) {
      SlotWelcome(s, s', v, w);
    }
    forall x, w | x in Reach(s) && w in Contents(s'.heap, x) ensures Welcome(s, s', iset{}, w) {
      ContentWelcome(s, s', v, x, w);
    }
    forall o | o in s'.marks.stack ensures O(o) in Reach(s) {
      ShadedStackReached(s, v, o);
    }
  }

  lemma DarkenedContents(s: State, s': State, v: Value, x: Node)
    requires Darkens(s.heap, s.marks, s'.marks, s.gc) && NonWhite(s'.marks, s.gc, v) && ContentsFrom(s, s', v)
    requires Color(s'.marks, x) == s.gc && Color(s.marks, x) != s.gc
    ensures ContentsNonWhite(s'.heap, s'.marks, s.gc, x)
  {
    forall w | w in Contents(s'.heap, x) ensures NonWhite(s'.marks, s.gc, w) {
      assert w in Contents(s.heap, x) || w == v || Flat(w);
    }
  }

  lemma CursorStays(s: State, s': State, v: Value, o: nat, i: nat)
    requires CursorOk(s, o, i) && CursorCells(s, s', v, o) && NonWhite(s'.marks, s.gc, v) && s'.gc == s.gc
    requires Darkens(s.heap, s.marks, s'.marks, s.gc) && StillFit(s.heap, s'.heap)
    ensures CursorOk(s', o, i)
  {
    var was, now := Contents(s.heap, O(o)), Contents(s'.heap, O(o));
    forall k | 0 <= k < i ensures NonWhite(s'.marks, s.gc, now[k]) {
      assert NonWhite(s.marks, s.gc, was[k]);
    }
  }

  lemma WritesShades(s: State, s': State, v: Value)
    requires s.phase.Marking? && TriColor(s) && Writes(s, s', v) && FitsDeep(s.heap, v)
    ensures Shades(s, s', iset{})
  {
    ShadeDarkens(s.heap, s.marks, s.gc, v);
    forall x | x in Reach(s) && Color(s'.marks, x) == s.gc && Color(s.marks, x) != s.gc
      ensures ContentsNonWhite(s'.heap, s'.marks, s.gc, x)
    {
      DarkenedContents(s, s', v, x);
    }
    forall x, w | x in Reach(s) && w in Contents(s'.heap, x)
      ensures w in Contents(s.heap, x) || NonWhite(s'.marks, s.gc, w)
    {
      assert w in Contents(s.heap, x) || w == v || Flat(w);
    }
    if s.phase.cursor.At? {
      CursorStays(s, s', v, s.phase.cursor.o, s.phase.cursor.i);
    }
  }

  lemma WritesKeeps(s: State, s': State, v: Value)
    requires Inv(s) && Writes(s, s', v) && FitsDeep(s.heap, v) && In(Reach(s), v)
    ensures Inv(s') && Reach(s') <= Reach(s)
  {
    WritesMoves(s, s', v);
    if s.phase.Marking? {
      WritesShades(s, s', v);
    }
    MutatesKeeps(s, s', iset{});
  }

  /** Overwriting a live cell leaves the End where it was. */
  lemma LiveCountUpdate(cells: seq<Value>, i: nat, v: Value)
    requires i < LiveCount(cells) && !v.End?
    ensures LiveCount(cells[i := v]) == LiveCount(cells)
  {
    if i > 0 {
      LiveCountUpdate(cells[1..], i - 1, v);
      assert cells[i := v][1..] == cells[1..][i - 1 := v];
    } else {
      assert cells[i := v][1..] == cells[1..];
    }
  }

  lemma SlotWrites(s: State, t: nat, j: nat, v: Value)
    requires Shapes(s) && Enabled(s, Assign(Slot(t, j), v))
    ensures Writes(s, Next(s, Assign(Slot(t, j), v)), v)
  {
    var s' := Next(s, Assign(Slot(t, j), v));
    forall w | InSlot(s', w) ensures InSlot(s, w) || w == v {
      var u, i :| 0 <= u < |s'.stacks| && 0 <= i < |s'.stacks[u]| && s'.stacks[u][i] == w;
      assert w == v || s.stacks[u][i] == w;
    }
  }

  lemma CellWrites(s: State, o: nat, i: nat, v: Value)
    requires Shapes(s) && Enabled(s, Assign(Cell(o, i), v))
    ensures Writes(s, Next(s, Assign(Cell(o, i), v)), v)
  {
    hide Reach, Reachable, Shade;
    var s' := Next(s, Assign(Cell(o, i), v));
    LiveCountUpdate(s.heap.buffers[o].cells, i, v);
    assert Contents(s'.heap, O(o)) == Contents(s.heap, O(o))[i := v];
    assert forall x :: x != O(o) ==> Contents(s'.heap, x) == Contents(s.heap, x);
    assert forall w :: InSlot(s', w) == InSlot(s, w);
  }

  lemma BehindWrites(s: State, r: nat, v: Value)
    requires Shapes(s) && Enabled(s, Assign(Behind(r), v))
    ensures Writes(s, Next(s, Assign(Behind(r), v)), v)
  {
    var s' := Next(s, Assign(Behind(r), v));
    assert Contents(s'.heap, V(r)) == [v];
    assert forall x :: x != V(r) ==> Contents(s'.heap, x) == Contents(s.heap, x);
    assert forall w :: InSlot(s', w) == InSlot(s, w);
  }

  lemma AssignKeeps(s: State, to: Loc, v: Value)
    requires Inv(s) && Enabled(s, Assign(to, v))
    ensures Inv(Next(s, Assign(to, v))) && Reach(Next(s, Assign(to, v))) <= Reach(s)
  {
    HeldWelcome(s, v);
    match to {
    case Slot(t, i) => SlotWrites(s, t, i, v);
    case Cell(o, i) => CellWrites(s, o, i, v);
    case Behind(r) => BehindWrites(s, r, v);
    }
    WritesKeeps(s, Next(s, Assign(to, v)), v);
  }

  lemma ResizeWrites(s: State, o: nat, b: Buffer, v: Value)
    requires Inv(s) && Enabled(s, Resize(o, b, v))
    ensures Writes(s, Next(s, Resize(o, b, v)), v)
  {
    hide Reach, Reachable, Held, Shade;
    var s' := Next(s, Resize(o, b, v));
    assert Contents(s'.heap, O(o)) == Scanned(b);
    assert forall x :: x != O(o) ==> Contents(s'.heap, x) == Contents(s.heap, x);
    assert forall w :: InSlot(s', w) == InSlot(s, w);
  }

  lemma ResizeKeeps(s: State, o: nat, b: Buffer, v: Value)
    requires Inv(s) && Enabled(s, Resize(o, b, v))
    ensures Inv(Next(s, Resize(o, b, v))) && Reach(Next(s, Resize(o, b, v))) <= Reach(s)
  {
    HeldWelcome(s, v);
    ResizeWrites(s, o, b, v);
    WritesKeeps(s, Next(s, Resize(o, b, v)), v);
  }

  // ----- allocation -----

  lemma BufferElsewhere(h: Heap, n: nat, b: Buffer, w: Value)
    requires n < |h.buffers| && Fits(h, w) && Target(w) != Some(O(n))
    ensures Fits(h.(buffers := h.buffers[n := b]), w)
  {
  }

  lemma NextUnreached(s: State)
    requires Inv(s) && FreeList.Enabled(s.olist, FreeList.Unlink)
    ensures O(s.olist.next) !in Reach(s)
  {
    FreeList.UnlinkTakesOne(s.olist);
  }

  lemma PushedSlot(s: State, t: nat, v: Value, s': State, w: Value)
    requires t < |s.stacks| && s'.stacks == PushOn(s.stacks, t, v) && InSlot(s', w)
    ensures InSlot(s, w) || w == v
  {
    var u, i :| 0 <= u < |s'.stacks| && 0 <= i < |s'.stacks[u]| && s'.stacks[u][i] == w;
    assert i < |s.stacks[u]| ==> s.stacks[u][i] == w;
  }

  /** The new cell, its colour and its content, before anything is pushed. */
  ghost predicate TakesOref(s: State, s': State, t: nat, v: Value, b: Buffer) {
    && 0 < t < |s.stacks| && FreeList.Enabled(s.olist, FreeList.Unlink) && Shapes(s)
    && (b == Chars || FromStack(s, b))
    && v == (if b == Chars then Text(Some(s.olist.next)) else Container(if v.Container? then v.kind else Array, Some(s.olist.next)))
    && s' == TakeOref(s, t, v, b)
  }

  lemma TakeMoves(s: State, s': State, t: nat, v: Value, b: Buffer)
    requires Inv(s) && TakesOref(s, s', t, v, b)
    ensures Moves(s, s', iset{O(s.olist.next)})
  {
    hide TriColor, Settled, Reachable, FreeList.Holds;
    var n := s.olist.next;
    var born := iset{O(n)};
    NextUnreached(s);
    FreeList.UnlinkTakesOne(s.olist);
    forall w | InSlot(s', w) ensures Welcome(s, s', born, w) {
      PushedSlot(s, t, v, s', w);
      if InSlot(s, w) { SlotReached(s, w); }
    }
    forall x, w | x in Reach(s) && w in Contents(s'.heap, x) ensures Welcome(s, s', born, w) {
      assert Contents(s'.heap, x) == Contents(s.heap, x);
      ContentReached(s, x, w);
      BufferElsewhere(s.heap, n, b, w);
    }
    forall w | w in Contents(s'.heap, O(n)) ensures Welcome(s, s', born, w) {
      assert w in Scanned(b);
      if InSlot(s, w) {
        SlotReached(s, w);
        BufferElsewhere(s.heap, n, b, w);
      }
    }
    forall o | o in s'.marks.stack ensures O(o) in Reach(s) {
      RootReachable(s.heap, Roots(s), O(o));
    }
  }

  lemma TakeMarkShape(s: State, s': State, t: nat, v: Value, b: Buffer)
    requires Inv(s) && s.phase.Marking? && TakesOref(s, s', t, v, b)
    ensures MarkShape(s'.heap, s'.marks, s.gc)
  {
    var n := s.olist.next;
    NextUnreached(s);
    forall o | o in s.marks.stack ensures o != n && Fits(s'.heap, Container(Array, Some(o))) {
      RootReachable(s.heap, Roots(s), O(o));
      BufferElsewhere(s.heap, n, b, Container(Array, Some(o)));
    }
  }

  lemma CursorElsewhere(s: State, s': State, n: nat, b: Buffer, o: nat, i: nat)
    requires CursorOk(s, o, i) && n < |s.heap.buffers| && n < |s.marks.ocolor| && n != o && s'.gc == s.gc
    requires s'.heap == s.heap.(buffers := s.heap.buffers[n := b]) && s'.marks == s.marks.(ocolor := s.marks.ocolor[n := s.gc])
    ensures CursorOk(s', o, i)
  {
    hide Scanned;
    BufferElsewhere(s.heap, n, b, Container(Array, Some(o)));
    assert Contents(s'.heap, O(o)) == Contents(s.heap, O(o));
    forall k | 0 <= k < i ensures NonWhite(s'.marks, s.gc, Contents(s.heap, O(o))[k]) {
      assert NonWhite(s.marks, s.gc, Contents(s.heap, O(o))[k]);
    }
  }

  lemma TakeCursor(s: State, s': State, t: nat, v: Value, b: Buffer)
    requires Inv(s) && s.phase.Marking? && s.phase.cursor.At? && TakesOref(s, s', t, v, b)
    ensures CursorOk(s', s.phase.cursor.o, s.phase.cursor.i)
  {
    hide CursorOk, Reach, FreeList.Sound, FromStack, MarkShape, Grounded, NonWhite;
    NextUnreached(s);
    CursorReached(s);
    CursorElsewhere(s, s', s.olist.next, b, s.phase.cursor.o, s.phase.cursor.i);
  }

  lemma CursorReached(s: State)
    requires s.phase.Marking? && s.phase.cursor.At?
    ensures O(s.phase.cursor.o) in Reach(s)
  {
    RootReachable(s.heap, Roots(s), O(s.phase.cursor.o));
  }

  lemma TakeShades(s: State, s': State, t: nat, v: Value, b: Buffer)
    requires Inv(s) && s.phase.Marking? && TakesOref(s, s', t, v, b)
    ensures Shades(s, s', iset{O(s.olist.next)})
  {
    hide Reachable, FreeList.Holds, CursorOk;
    var n := s.olist.next;
    NextUnreached(s);
    TakeMarkShape(s, s', t, v, b);
    forall w | InSlot(s', w) ensures NonWhite(s'.marks, s.gc, w) {
      PushedSlot(s, t, v, s', w);
    }
    forall w | w in Contents(s'.heap, O(n)) ensures NonWhite(s'.marks, s.gc, w) {
      assert w in Scanned(b);
    }
    forall x | x in Reach(s) ensures Contents(s'.heap, x) == Contents(s.heap, x) {}
    if s.phase.cursor.At? { TakeCursor(s, s', t, v, b); }
  }

  lemma TakeKeeps(s: State, s': State, t: nat, v: Value, b: Buffer)
    requires Inv(s) && TakesOref(s, s', t, v, b)
    ensures Inv(s') && Reach(s') <= Reach(s) + iset{O(s.olist.next)}
  {
    TakeMoves(s, s', t, v, b);
    FreeList.StepSound(s.olist, FreeList.Unlink);
    if s.phase.Marking? { TakeShades(s, s', t, v, b); }
    MutatesKeeps(s, s', iset{O(s.olist.next)});
  }

  lemma ValueElsewhere(h: Heap, n: nat, b: Value, w: Value)
    requires n < |h.vvalues| && Fits(h, w) && Target(w) != Some(V(n))
    ensures Fits(h.(vvalues := h.vvalues[n := b]), w)
  {
  }

  lemma NextVrefUnreached(s: State)
    requires Inv(s) && FreeList.Enabled(s.vlist, FreeList.Unlink)
    ensures V(s.vlist.next) !in Reach(s)
  {
    FreeList.UnlinkTakesOne(s.vlist);
  }

  lemma VrefSlot(s: State, t: nat, w: Value)
    requires Shapes(s) && Enabled(s, NewVref(t)) && InSlot(Next(s, NewVref(t)), w)
    ensures InSlot(s, w) || w == Ref(s.vlist.next)
  {
    var s' := Next(s, NewVref(t));
    var u, i :| 0 <= u < |s'.stacks| && 0 <= i < |s'.stacks[u]| && s'.stacks[u][i] == w;
    assert w == Ref(s.vlist.next) || s.stacks[u][i] == w;
  }

  lemma TopInSlot(s: State, t: nat)
    requires Enabled(s, NewVref(t))
    ensures InSlot(s, s.stacks[t][|s.stacks[t]| - 1])
  {
  }

  lemma VrefMoves(s: State, t: nat)
    requires Inv(s) && Enabled(s, NewVref(t))
    ensures Moves(s, Next(s, NewVref(t)), iset{V(s.vlist.next)})
  {
    hide TriColor, Settled, Reachable, FreeList.Holds;
    var n, s', top := s.vlist.next, Next(s, NewVref(t)), s.stacks[t][|s.stacks[t]| - 1];
    var born := iset{V(n)};
    NextVrefUnreached(s);
    FreeList.UnlinkTakesOne(s.vlist);
    TopInSlot(s, t);
    SlotReached(s, top);
    forall w | InSlot(s', w) ensures Welcome(s, s', born, w) {
      VrefSlot(s, t, w);
      if InSlot(s, w) { SlotReached(s, w); ValueElsewhere(s.heap, n, top, w); }
    }
    forall x, w | x in Reach(s) && w in Contents(s'.heap, x) ensures Welcome(s, s', born, w) {
      assert Contents(s'.heap, x) == Contents(s.heap, x);
      ContentReached(s, x, w);
      ValueElsewhere(s.heap, n, top, w);
    }
    assert Contents(s'.heap, V(n)) == [top];
    ValueElsewhere(s.heap, n, top, top);
    forall o | o in s'.marks.stack ensures O(o) in Reach(s) {
      RootReachable(s.heap, Roots(s), O(o));
    }
  }

  lemma VrefMarkShape(s: State, t: nat)
    requires Inv(s) && s.phase.Marking? && Enabled(s, NewVref(t))
    ensures MarkShape(Next(s, NewVref(t)).heap, Next(s, NewVref(t)).marks, s.gc)
    ensures s.phase.cursor.At? ==> CursorOk(Next(s, NewVref(t)), s.phase.cursor.o, s.phase.cursor.i)
  {
    hide Reachable, FreeList.Holds, ContentsNonWhite;
    var s' := Next(s, NewVref(t));
    NextVrefUnreached(s);
    if s.phase.cursor.At? {
      var o, i := s.phase.cursor.o, s.phase.cursor.i;
      RootReachable(s.heap, Roots(s), O(o));
      forall k | 0 <= k < i ensures NonWhite(s'.marks, s.gc, Contents(s.heap, O(o))[k]) {
        assert NonWhite(s.marks, s.gc, Contents(s.heap, O(o))[k]);
      }
    }
  }

  lemma VrefShades(s: State, t: nat)
    requires Inv(s) && s.phase.Marking? && Enabled(s, NewVref(t))
    ensures Shades(s, Next(s, NewVref(t)), iset{V(s.vlist.next)})
  {
    hide Reachable, FreeList.Holds, MarkShape;
    var n, s', top := s.vlist.next, Next(s, NewVref(t)), s.stacks[t][|s.stacks[t]| - 1];
    NextVrefUnreached(s);
    VrefMarkShape(s, t);
    TopInSlot(s, t);
    forall w | InSlot(s', w) ensures NonWhite(s'.marks, s.gc, w) {
      VrefSlot(s, t, w);
    }
    assert Contents(s'.heap, V(n)) == [top];
    forall x | x in Reach(s) ensures Contents(s'.heap, x) == Contents(s.heap, x) {}
  }

  lemma NewVrefKeeps(s: State, t: nat)
    requires Inv(s) && Enabled(s, NewVref(t))
    ensures Inv(Next(s, NewVref(t))) && Reach(Next(s, NewVref(t))) <= Reach(s) + iset{V(s.vlist.next)}
  {
    hide Moves, Shades, Reach, Grounded;
    VrefMoves(s, t);
    FreeList.StepSound(s.vlist, FreeList.Unlink);
    if s.phase.Marking? { VrefShades(s, t); }
    MutatesKeeps(s, Next(s, NewVref(t)), iset{V(s.vlist.next)});
  }

  // ----- the free lists -----

  /** A move of a free list that neither hands out a cell nor takes one back. */
  ghost predicate OnlyLists(s: State, s': State, om: Option<FreeList.Move>, vm: Option<FreeList.Move>) {
    && (om.Some? ==> (Taking(om.value) || Giving(om.value)) && FreeList.Enabled(s.olist, om.value))
    && (vm.Some? ==> (Taking(vm.value) || Giving(vm.value)) && FreeList.Enabled(s.vlist, vm.value))
    && s' == s.(olist := if om.Some? then FreeList.Apply(s.olist, om.value) else s.olist,
                vlist := if vm.Some? then FreeList.Apply(s.vlist, vm.value) else s.vlist)
  }

  lemma OnlyListsKeeps(s: State, s': State, om: Option<FreeList.Move>, vm: Option<FreeList.Move>)
    requires Inv(s) && OnlyLists(s, s', om, vm)
    ensures Inv(s') && Reach(s') <= Reach(s)
  {
    if om.Some? { FreeList.StepSound(s.olist, om.value); }
    if vm.Some? { FreeList.StepSound(s.vlist, vm.value); }
    forall x | x in Reach(s) ensures NodeAllocated(s', x) {
      match x
      case O(o) => if om.Some? { FreeList.OthersAllocate(s.olist, om.value, o); }
      case V(r) => if vm.Some? { FreeList.OthersAllocate(s.vlist, vm.value, r); }
    }
    assert forall w :: InSlot(s', w) == InSlot(s, w);
    assert Reach(s') == Reach(s);
  }

  // ----- marking -----

  /** With nothing on the mark stack and no cursor, the roots are the slots. */
  lemma RootsAreSlots(s: State)
    requires s.marks.stack == [] && (s.phase.Marking? ==> s.phase.cursor.NoCursor?)
    ensures Roots(s) == Slots(s) && forall x :: x in Reach(s) <==> Live(s, x)
  {
  }

  /** Only the colours, the mark stack and the phase differ. */
  ghost predicate SameObjects(s: State, s': State) {
    s'.heap == s.heap && s'.stacks == s.stacks && s'.olist == s.olist && s'.vlist == s.vlist
  }

  lemma SameSlots(s: State, s': State)
    requires SameObjects(s, s')
    ensures Slots(s') == Slots(s) && forall w :: InSlot(s', w) == InSlot(s, w)
  {
    forall w ensures InSlot(s', w) == InSlot(s, w) {}
  }

  /** If the collector's own roots were reachable, no more is reachable and all is still grounded. */
  lemma SameObjectsGrounds(s: State, s': State)
    requires Grounded(s) && SameObjects(s, s') && Roots(s') <= Reach(s)
    ensures Grounded(s') && Reach(s') <= Reach(s)
  {
    ReachableSetClosed(s.heap, Roots(s));
    SameSlots(s, s');
    assert Reach(s) + iset{} == Reach(s);
    ReachGrows(s, s', iset{});
  }

  lemma MarkAllSettles(s: State)
    requires Shapes(s) && Grounded(s) && Settled(s) && s.phase == Idle
    requires Reach(Next(s, MarkAll)) <= Reach(s)
    ensures Settled(Next(s, MarkAll))
  {
    var s' := Next(s, MarkAll);
    RootsAreSlots(s);
    forall x | x in Reach(s') ensures Color(s'.marks, x) == s'.gc {
      assert Live(s, x) && NodeAllocated(s, x);
    }
    forall x ensures Color(s'.marks, x) <= s'.gc {
      assert Color(s.marks, x) <= s.gc;
    }
  }

  /** MarkAll leaves the same things reachable, and all of them black. */
  lemma MarkAllKeeps(s: State)
    requires Inv(s) && Enabled(s, MarkAll)
    ensures Inv(Next(s, MarkAll)) && Reach(Next(s, MarkAll)) <= Reach(s)
  {
    var s' := Next(s, MarkAll);
    assert Roots(s') <= Reach(s) by {
      RootsAreSlots(s);
      RootsAreSlots(s');
      SameSlots(s, s');
      ReachableSetClosed(s.heap, Roots(s));
    }
    SameObjectsGrounds(s, s');
    MarkAllSettles(s);
  }

  /** Shading a list of root values, one after the other. */
  lemma {:induction false} ShadeAllDarkens(h: Heap, m: Marks, gc: int, vs: seq<Value>)
    requires MarkShape(h, m, gc) && forall v :: v in vs ==> FitsDeep(h, v)
    ensures var m' := ShadeAll(h, m, gc, vs);
            MarkShape(h, m', gc) && Darkens(h, m, m', gc)
            && (forall v :: v in vs ==> NonWhite(m', gc, v))
            && (forall o :: o in m'.stack ==> o in m.stack || PushedBy(h, vs, o))
    decreases |vs|
  {
    if vs != [] {
      var m1 := Shade(h, m, gc, vs[0]);
      ShadeDarkens(h, m, gc, vs[0]);
      ShadeAllDarkens(h, m1, gc, vs[1..]);
      var m' := ShadeAll(h, m1, gc, vs[1..]);
      DarkensTogether(h, m, m1, m', gc);
      forall o | o in m'.stack ensures o in m.stack || PushedBy(h, vs, o) {
        if o in m1.stack {
          if o !in m.stack { ShadePushes(h, m, gc, vs[0], o); }
        } else {
          var v :| v in vs[1..] && Pushes(h, v, o);
          assert v in vs;
        }
      }
    }
  }

  /** o is what shading v may push. */
  ghost predicate Pushes(h: Heap, v: Value, o: nat) {
    Target(v) == Some(O(o)) || (v.Ref? && v.vref < |h.vvalues| && Target(h.vvalues[v.vref]) == Some(O(o)))
  }

  ghost predicate PushedBy(h: Heap, vs: seq<Value>, o: nat) {
    exists v :: v in vs && Pushes(h, v, o)
  }

  lemma DarkensTogether(h: Heap, m: Marks, m1: Marks, m2: Marks, gc: int)
    requires Darkens(h, m, m1, gc) && Darkens(h, m1, m2, gc)
    ensures Darkens(h, m, m2, gc)
  {
    forall x, v | Color(m2, x) == gc && Color(m, x) != gc && v in Contents(h, x) ensures NonWhite(m2, gc, v) {
      if Color(m1, x) == gc { assert NonWhite(m1, gc, v); }
    }
  }

  lemma {:induction false} ShadeStacksDarkens(h: Heap, m: Marks, gc: int, stacks: seq<seq<Value>>)
    requires MarkShape(h, m, gc) && forall t, v :: 0 <= t < |stacks| && v in stacks[t] ==> FitsDeep(h, v)
    ensures var m' := ShadeStacks(h, m, gc, stacks);
            MarkShape(h, m', gc) && Darkens(h, m, m', gc)
            && (forall t, v :: 0 <= t < |stacks| && v in stacks[t] ==> NonWhite(m', gc, v))
            && (forall o :: o in m'.stack ==>
                  o in m.stack || exists t :: 0 <= t < |stacks| && PushedBy(h, stacks[t], o))
    decreases |stacks|
  {
    if stacks != [] {
      var m1 := ShadeAll(h, m, gc, stacks[0]);
      ShadeAllDarkens(h, m, gc, stacks[0]);
      ShadeStacksDarkens(h, m1, gc, stacks[1..]);
      var m' := ShadeStacks(h, m1, gc, stacks[1..]);
      DarkensTogether(h, m, m1, m', gc);
      forall t, v | 0 <= t < |stacks| && v in stacks[t] ensures NonWhite(m', gc, v) {
        if t == 0 { assert NonWhite(m1, gc, v); } else { assert v in stacks[1..][t - 1]; }
      }
      forall o | o in m'.stack && o !in m.stack ensures exists t :: 0 <= t < |stacks| && PushedBy(h, stacks[t], o) {
        if o in m1.stack {
          assert PushedBy(h, stacks[0], o);
        } else {
          var t :| 0 <= t < |stacks[1..]| && PushedBy(h, stacks[1..][t], o);
          assert stacks[1..][t] == stacks[t + 1];
        }
      }
    }
  }

  lemma SlotIn(s: State, v: Value)
    ensures InSlot(s, v) <==> exists t :: 0 <= t < |s.stacks| && v in s.stacks[t]
  {
    if t :| 0 <= t < |s.stacks| && v in s.stacks[t] {
      var i :| 0 <= i < |s.stacks[t]| && s.stacks[t][i] == v;
    }
  }

  lemma SlotDeep(s: State, v: Value)
    requires Inv(s) && InSlot(s, v)
    ensures FitsDeep(s.heap, v) && In(Reach(s), v)
    ensures v.Ref? ==> In(Reach(s), s.heap.vvalues[v.vref])
  {
    SlotReached(s, v);
    if v.Ref? { ContentReached(s, V(v.vref), s.heap.vvalues[v.vref]); }
  }

  lemma PushedReached(s: State, t: nat, o: nat)
    requires Inv(s) && t < |s.stacks| && PushedBy(s.heap, s.stacks[t], o)
    ensures O(o) in Reach(s)
  {
    var v :| v in s.stacks[t] && Pushes(s.heap, v, o);
    SlotIn(s, v);
    SlotDeep(s, v);
  }

  /** The colours and mark stack after the roots have been shaded. */
  lemma BeginMarks(s: State)
    requires Inv(s) && Enabled(s, BeginMark)
    ensures var m' := Next(s, BeginMark).marks;
            MarkShape(s.heap, m', s.gc + 1) && Darkens(s.heap, s.marks, m', s.gc + 1)
            && (forall v :: InSlot(s, v) ==> NonWhite(m', s.gc + 1, v))
            && (forall o :: o in m'.stack ==> O(o) in Reach(s))
  {
    forall o: nat | o < |s.marks.ocolor| ensures s.marks.ocolor[o] <= s.gc { assert Color(s.marks, O(o)) <= s.gc; }
    forall r: nat | r < |s.marks.vcolor| ensures s.marks.vcolor[r] <= s.gc { assert Color(s.marks, V(r)) <= s.gc; }
    forall t, v | 0 <= t < |s.stacks| && v in s.stacks[t] ensures FitsDeep(s.heap, v) {
      SlotIn(s, v);
      SlotDeep(s, v);
    }
    hide Reach, Darkens, FitsDeep, NonWhite, Contents, PushedBy;
    ShadeStacksDarkens(s.heap, s.marks, s.gc + 1, s.stacks);
    var m' := ShadeStacks(s.heap, s.marks, s.gc + 1, s.stacks);
    forall v | InSlot(s, v) ensures NonWhite(m', s.gc + 1, v) { SlotIn(s, v); }
    forall o | o in m'.stack ensures O(o) in Reach(s) {
      var t :| 0 <= t < |s.stacks| && PushedBy(s.heap, s.stacks[t], o);
      PushedReached(s, t, o);
    }
  }

  lemma BeginMarkTriColors(s: State, s': State)
    requires (forall x :: Color(s.marks, x) <= s.gc) && SameObjects(s, s')
    requires s'.phase == Marking(NoCursor) && s'.gc == s.gc + 1 && MarkShape(s.heap, s'.marks, s'.gc)
    requires Darkens(s.heap, s.marks, s'.marks, s'.gc) && forall v :: InSlot(s, v) ==> NonWhite(s'.marks, s'.gc, v)
    ensures TriColor(s')
  {
    SameSlots(s, s');
    forall x | Color(s'.marks, x) == s'.gc ensures ContentsNonWhite(s'.heap, s'.marks, s'.gc, x) {
      assert Color(s.marks, x) <= s.gc;
    }
  }

  lemma BeginMarkKeeps(s: State)
    requires Inv(s) && Enabled(s, BeginMark)
    ensures Inv(Next(s, BeginMark)) && Reach(Next(s, BeginMark)) <= Reach(s)
  {
    var s' := Next(s, BeginMark);
    SameSlots(s, s');
    assert Roots(s) <= Reach(s) by { ReachableSetClosed(s.heap, Roots(s)); }
    hide Reach, TriColor, Grounded, ShadeStacks, MarkShape, Darkens, NonWhite;
    BeginMarks(s);
    BeginMarkTriColors(s, s');
    SameObjectsGrounds(s, s');
  }

  lemma PopGrayShape(s: State)
    requires Inv(s) && Enabled(s, PopGray)
    ensures var s', o := Next(s, PopGray), s.marks.stack[|s.marks.stack| - 1];
            MarkShape(s'.heap, s'.marks, s.gc) && Fits(s.heap, Container(Array, Some(o)))
            && (forall n :: n in s'.marks.stack ==> n in s.marks.stack) && O(o) in Roots(s)
  {
    var st := s.marks.stack;
    var o, rest := st[|st| - 1], st[..|st| - 1];
    assert st == rest + [o];
    assert o in st && o !in rest;
    assert forall n: nat :: n in st <==> n in rest || n == o;
  }

  lemma PopGrayTriColors(s: State, s': State, o: nat)
    requires s.phase == Marking(NoCursor) && TriColor(s) && |s.marks.stack| > 0
    requires SameObjects(s, s') && s'.gc == s.gc && s'.marks == Popped(s.marks, s.gc)
    requires o == s.marks.stack[|s.marks.stack| - 1] && Fits(s.heap, Container(Array, Some(o)))
    requires s'.phase == Marking(if s.heap.buffers[o].Cells? then At(o, 0) else NoCursor)
    requires Reach(s') <= Reach(s) && MarkShape(s.heap, s'.marks, s.gc)
    ensures TriColor(s')
  {
    SameSlots(s, s');
    assert forall x :: x != O(o) ==> Color(s'.marks, x) == Color(s.marks, x);
    assert Color(s'.marks, O(o)) == s.gc == Color(s.marks, O(o)) - 1;
    forall x, v | x in Reach(s') && Color(s'.marks, x) == s.gc && !(x.O? && Scanning(s', x.o)) && v in Contents(s.heap, x)
      ensures NonWhite(s'.marks, s.gc, v)
    {
      assert x != O(o);
      assert ContentsNonWhite(s.heap, s.marks, s.gc, x);
      assert NonWhite(s.marks, s.gc, v);
    }
  }

  lemma PopGrayKeeps(s: State)
    requires Inv(s) && Enabled(s, PopGray)
    ensures Inv(Next(s, PopGray)) && Reach(Next(s, PopGray)) <= Reach(s)
  {
    var s' := Next(s, PopGray);
    PopGrayShape(s);
    assert Roots(s') <= Reach(s) by {
      SameSlots(s, s');
      ReachableSetClosed(s.heap, Roots(s));
    }
    SameObjectsGrounds(s, s');
    PopGrayTriColors(s, s', s.marks.stack[|s.marks.stack| - 1]);
  }

  lemma ScanShade(s: State)
    requires Inv(s) && Enabled(s, ScanCell) && s.phase.cursor.i < |Contents(s.heap, O(s.phase.cursor.o))|
    ensures var v := Contents(s.heap, O(s.phase.cursor.o))[s.phase.cursor.i];
            FitsDeep(s.heap, v) && In(Reach(s), v)
            && forall o :: o in Shade(s.heap, s.marks, s.gc, v).stack ==> O(o) in Reach(s)
  {
    var o := s.phase.cursor.o;
    var v := Contents(s.heap, O(o))[s.phase.cursor.i];
    RootReachable(s.heap, Roots(s), O(o));
    ContentReached(s, O(o), v);
    if v.Ref? { ContentReached(s, V(v.vref), s.heap.vvalues[v.vref]); }
    forall n | n in Shade(s.heap, s.marks, s.gc, v).stack ensures O(n) in Reach(s) {
      ShadedStackReached(s, v, n);
    }
  }

  /** Shading the next cell and stepping over it keeps the tri-colour invariant. */
  lemma ScanTriColors(s: State, s': State, o: nat, i: nat)
    requires s.phase == Marking(At(o, i)) && TriColor(s) && SameObjects(s, s') && s'.gc == s.gc
    requires Reach(s') <= Reach(s) && i < |Contents(s.heap, O(o))| && s'.phase == Marking(At(o, i + 1))
    requires MarkShape(s.heap, s'.marks, s.gc) && Darkens(s.heap, s.marks, s'.marks, s.gc)
    requires NonWhite(s'.marks, s.gc, Contents(s.heap, O(o))[i])
    ensures TriColor(s')
  {
    hide Reach, Contents;
    SameSlots(s, s');
    forall x | x in Reach(s') && Color(s'.marks, x) == s.gc && !(x.O? && Scanning(s', x.o))
      ensures ContentsNonWhite(s'.heap, s'.marks, s.gc, x)
    {
      if Color(s.marks, x) == s.gc {
        assert ContentsNonWhite(s.heap, s.marks, s.gc, x);
      }
    }
  }

  /** When the scan has met the End of the container, all its cells are non-white. */
  lemma ScanEndTriColors(s: State, s': State, o: nat, i: nat)
    requires s.phase == Marking(At(o, i)) && TriColor(s) && SameObjects(s, s') && s'.gc == s.gc
    requires Reach(s') <= Reach(s) && i >= |Contents(s.heap, O(o))| && s'.phase == Marking(NoCursor)
    requires s'.marks == s.marks
    ensures TriColor(s')
  {
    hide Reach, Contents;
    SameSlots(s, s');
  }

  /** What the step over the next cell does to colours and to what the collector holds. */
  lemma ScanShades(s: State)
    requires Inv(s) && Enabled(s, ScanCell) && s.phase.cursor.i < |Contents(s.heap, O(s.phase.cursor.o))|
    ensures var s', v := Next(s, ScanCell), Contents(s.heap, O(s.phase.cursor.o))[s.phase.cursor.i];
            MarkShape(s.heap, s'.marks, s.gc) && Darkens(s.heap, s.marks, s'.marks, s.gc)
            && NonWhite(s'.marks, s.gc, v) && Roots(s') <= Reach(s)
  {
    var s' := Next(s, ScanCell);
    SameSlots(s, s');
    ReachableSetClosed(s.heap, Roots(s));
    ScanShade(s);
    hide Contents, Reach, Inv;
    ShadeDarkens(s.heap, s.marks, s.gc, Contents(s.heap, O(s.phase.cursor.o))[s.phase.cursor.i]);
  }

  lemma ScanCellKeeps(s: State)
    requires Inv(s) && Enabled(s, ScanCell)
    ensures Inv(Next(s, ScanCell)) && Reach(Next(s, ScanCell)) <= Reach(s)
  {
    var s', o, i := Next(s, ScanCell), s.phase.cursor.o, s.phase.cursor.i;
    assert Roots(s) <= Reach(s) by { ReachableSetClosed(s.heap, Roots(s)); }
    hide Reach, Contents, TriColor, Grounded;
    if i < |Contents(s.heap, O(o))| {
      ScanShades(s);
      SameObjectsGrounds(s, s');
      ScanTriColors(s, s', o, i);
    } else {
      SameSlots(s, s');
      SameObjectsGrounds(s, s');
      ScanEndTriColors(s, s', o, i);
    }
  }

  lemma BlackIfNotWhite(s: State, x: Node)
    requires s.phase.Marking? && TriColor(s) && s.marks.stack == [] && Grounded(s) && Shapes(s)
    requires x in Reach(s) && Color(s.marks, x) >= s.gc
    ensures Color(s.marks, x) == s.gc
  {
    assert NodeAllocated(s, x);
  }

  /** When the mark stack is empty and no container is being scanned, everything reachable is black. */
  lemma EmptyStackAllBlack(s: State, x: Node)
    requires Inv(s) && s.phase == Marking(NoCursor) && s.marks.stack == [] && x in Reach(s)
    ensures Color(s.marks, x) == s.gc
  {
    var c := iset y | y in Reach(s) && Color(s.marks, y) == s.gc;
    forall y | y in Roots(s) ensures y in c {
      var v :| InSlot(s, v) && Target(v) == Some(y);
      assert NonWhite(s.marks, s.gc, v);
      RootReachable(s.heap, Roots(s), y);
      BlackIfNotWhite(s, y);
    }
    forall y, v | y in c && v in Contents(s.heap, y) && Target(v).Some? ensures Target(v).value in c {
      assert ContentsNonWhite(s.heap, s.marks, s.gc, y);
      assert NonWhite(s.marks, s.gc, v);
      StepReachable(s.heap, Roots(s), y, v);
      BlackIfNotWhite(s, Target(v).value);
    }
    ReachableContained(s.heap, Roots(s), c, x);
  }

  lemma EndMarkKeeps(s: State)
    requires Inv(s) && Enabled(s, EndMark)
    ensures Inv(Next(s, EndMark)) && Reach(Next(s, EndMark)) <= Reach(s)
  {
    var s' := Next(s, EndMark);
    assert s' == s.(phase := Sweeping) && s.phase == Marking(NoCursor) && s.marks.stack == [];
    MarkedColored(s);
    hide Grounded, TriColor, FreeList.Sound, Next, Enabled, Reachable;
    SameSlots(s, s');
    ReachableSetClosed(s.heap, Roots(s));
    SameObjectsGrounds(s, s');
    hide Reach;
    forall x | x in Reach(s') ensures Color(s'.marks, x) == s'.gc {
      EmptyStackAllBlack(s, x);
    }
    assert Settled(s');
  }

  /** With an empty mark stack nothing is gray. */
  lemma MarkedColored(s: State)
    requires Inv(s) && s.phase.Marking? && s.marks.stack == []
    ensures forall x :: Color(s.marks, x) <= s.gc
  {
    hide Grounded, Reach, FreeList.Sound;
  }

  // ----- sweeping -----

  lemma FreeOrefMoves(s: State, n: nat)
    requires Inv(s) && Enabled(s, FreeOref(n))
    ensures Moves(s, Next(s, FreeOref(n)), iset{}) && O(n) !in Reach(s)
  {
    hide TriColor, Reachable, FreeList.Holds;
    var s' := Next(s, FreeOref(n));
    ReachableSetClosed(s.heap, Roots(s));
    forall w | InSlot(s', w) ensures Welcome(s, s', iset{}, w) {
      assert InSlot(s, w);
      SlotReached(s, w);
      BufferElsewhere(s.heap, n, NoBuffer, w);
    }
    forall x, w | x in Reach(s) && w in Contents(s'.heap, x) ensures Welcome(s, s', iset{}, w) {
      assert Contents(s'.heap, x) == Contents(s.heap, x);
      ContentReached(s, x, w);
      BufferElsewhere(s.heap, n, NoBuffer, w);
    }
    forall x | x in Reach(s) ensures NodeAllocated(s', x) {
      if x.O? { FreeList.OthersAllocate(s.olist, FreeList.Claim(n), x.o); }
    }
  }

  lemma FreeOrefKeeps(s: State, n: nat)
    requires Inv(s) && Enabled(s, FreeOref(n))
    ensures Inv(Next(s, FreeOref(n))) && Reach(Next(s, FreeOref(n))) <= Reach(s) && O(n) !in Reach(s)
  {
    FreeOrefMoves(s, n);
    FreeList.StepSound(s.olist, FreeList.Claim(n));
    hide Moves, Reach, Grounded;
    MutatesKeeps(s, Next(s, FreeOref(n)), iset{});
  }

  lemma FreeVrefMoves(s: State, n: nat)
    requires Inv(s) && Enabled(s, FreeVref(n))
    ensures Moves(s, Next(s, FreeVref(n)), iset{}) && V(n) !in Reach(s)
  {
    hide TriColor, Reachable, FreeList.Holds;
    var s' := Next(s, FreeVref(n));
    ReachableSetClosed(s.heap, Roots(s));
    forall w | InSlot(s', w) ensures Welcome(s, s', iset{}, w) {
      assert InSlot(s, w);
      SlotReached(s, w);
      ValueElsewhere(s.heap, n, Nil, w);
    }
    forall x, w | x in Reach(s) && w in Contents(s'.heap, x) ensures Welcome(s, s', iset{}, w) {
      assert Contents(s'.heap, x) == Contents(s.heap, x);
      ContentReached(s, x, w);
      ValueElsewhere(s.heap, n, Nil, w);
    }
    forall x | x in Reach(s) ensures NodeAllocated(s', x) {
      if x.V? { FreeList.OthersAllocate(s.vlist, FreeList.Claim(n), x.r); }
    }
  }

  lemma FreeVrefKeeps(s: State, n: nat)
    requires Inv(s) && Enabled(s, FreeVref(n))
    ensures Inv(Next(s, FreeVref(n))) && Reach(Next(s, FreeVref(n))) <= Reach(s) && V(n) !in Reach(s)
  {
    FreeVrefMoves(s, n);
    FreeList.StepSound(s.vlist, FreeList.Claim(n));
    hide Moves, Reach, Grounded;
    MutatesKeeps(s, Next(s, FreeVref(n)), iset{});
  }

  // ----- all actions -----

  /** The node an action brings into use. */
  ghost function Born(s: State, a: Action): iset<Node>
    requires Shapes(s) && Enabled(s, a)
  {
    match a
    case NewText(_) => iset{O(s.olist.next)}
    case NewContainer(_, _, _) => iset{O(s.olist.next)}
    case NewVref(_) => iset{V(s.vlist.next)}
    case _ => iset{}
  }

  lemma NewTextKeeps(s: State, t: nat)
    requires Inv(s) && Enabled(s, NewText(t))
    ensures Inv(Next(s, NewText(t))) && Reach(Next(s, NewText(t))) <= Reach(s) + Born(s, NewText(t))
  {
    TakeKeeps(s, Next(s, NewText(t)), t, Text(Some(s.olist.next)), Chars);
  }

  lemma NewContainerKeeps(s: State, t: nat, k: Kind, b: Buffer)
    requires Inv(s) && Enabled(s, NewContainer(t, k, b))
    ensures Inv(Next(s, NewContainer(t, k, b)))
    ensures Reach(Next(s, NewContainer(t, k, b))) <= Reach(s) + Born(s, NewContainer(t, k, b))
  {
    TakeKeeps(s, Next(s, NewContainer(t, k, b)), t, Container(k, Some(s.olist.next)), b);
  }

  lemma EndSweepKeeps(s: State)
    requires Inv(s) && Enabled(s, EndSweep)
    ensures Inv(Next(s, EndSweep)) && Reach(Next(s, EndSweep)) <= Reach(s)
  {
    var s' := Next(s, EndSweep);
    SameSlots(s, s');
    ReachableSetClosed(s.heap, Roots(s));
    SameObjectsGrounds(s, s');
  }

  lemma OrefListKeeps(s: State, m: FreeList.Move, a: Action)
    requires Inv(s) && Enabled(s, a) && (a == OTake(m) || a == OGive(m))
    ensures Inv(Next(s, a)) && Reach(Next(s, a)) <= Reach(s)
  {
    OnlyListsKeeps(s, Next(s, a), Some(m), None);
  }

  lemma VrefListKeeps(s: State, m: FreeList.Move, a: Action)
    requires Inv(s) && Enabled(s, a) && (a == VTake(m) || a == VGive(m))
    ensures Inv(Next(s, a)) && Reach(Next(s, a)) <= Reach(s)
  {
    OnlyListsKeeps(s, Next(s, a), None, Some(m));
  }

  predicate Allocates(a: Action) { a.NewText? || a.NewContainer? || a.NewVref? }

  predicate Collects(a: Action) {
    a.MarkAll? || a.BeginMark? || a.PopGray? || a.ScanCell? || a.EndMark?
    || a.FreeOref? || a.FreeVref? || a.OGive? || a.VGive? || a.EndSweep?
  }

  lemma AllocationKeeps(s: State, a: Action)
    requires Inv(s) && Enabled(s, a) && Allocates(a)
    ensures Inv(Next(s, a)) && Reach(Next(s, a)) <= Reach(s) + Born(s, a)
  {
    if a.NewText? { NewTextKeeps(s, a.t); }
    else if a.NewContainer? { NewContainerKeeps(s, a.t, a.kind, a.buffer); }
    else { NewVrefKeeps(s, a.t); }
  }

  lemma MutationKeeps(s: State, a: Action)
    requires Inv(s) && Enabled(s, a) && !Allocates(a) && !Collects(a)
    ensures Inv(Next(s, a)) && Reach(Next(s, a)) <= Reach(s)
  {
    match a
    case Push(t, v) => PushKeeps(s, t, v);
    case Pop(t, k) => PopKeeps(s, t, k);
    case Assign(to, v) => AssignKeeps(s, to, v);
    case Resize(o, b, v) => ResizeKeeps(s, o, b, v);
    case NewThread => NewThreadKeeps(s);
    case OTake(m) => OrefListKeeps(s, m, a);
    case VTake(m) => VrefListKeeps(s, m, a);
  }

  lemma CollectionKeeps(s: State, a: Action)
    requires Inv(s) && Enabled(s, a) && Collects(a)
    ensures Inv(Next(s, a)) && Reach(Next(s, a)) <= Reach(s)
  {
    match a
    case MarkAll => MarkAllKeeps(s);
    case BeginMark => BeginMarkKeeps(s);
    case PopGray => PopGrayKeeps(s);
    case ScanCell => ScanCellKeeps(s);
    case EndMark => EndMarkKeeps(s);
    case FreeOref(n) => FreeOrefKeeps(s, n);
    case FreeVref(n) => FreeVrefKeeps(s, n);
    case OGive(m) => OrefListKeeps(s, m, a);
    case VGive(m) => VrefListKeeps(s, m, a);
    case EndSweep => EndSweepKeeps(s);
  }

  /** Every action keeps the invariant, and nothing but a newly allocated node becomes reachable. */
  lemma ActionKeeps(s: State, a: Action)
    requires Inv(s) && Enabled(s, a)
    ensures Inv(Next(s, a)) && Reach(Next(s, a)) <= Reach(s) + Born(s, a)
  {
    if Allocates(a) { AllocationKeeps(s, a); }
    else if Collects(a) { CollectionKeeps(s, a); }
    else { MutationKeeps(s, a); }
  }

  // ----- runs -----

  /** The tables as vartab_ini leaves them, with no thread yet. */
  function Initial(orefs: nat, vrefs: nat): State
    requires orefs > 0 && vrefs > 0
  {
    State(Heap(seq(orefs, _ => NoBuffer), seq(vrefs, _ => Nil)),
          Marks(seq(orefs, _ => 0), seq(vrefs, _ => 0), []), 0,
          FreeList.Initial(orefs), FreeList.Initial(vrefs), [[]], Idle)
  }

  lemma InitialInv(orefs: nat, vrefs: nat)
    requires orefs > 0 && vrefs > 0
    ensures Inv(Initial(orefs, vrefs))
  {
    var s := Initial(orefs, vrefs);
    FreeList.InitialHolds(orefs);
    FreeList.InitialHolds(vrefs);
    assert forall v :: !InSlot(s, v);
    forall x ensures x !in Reach(s) {
      if x in Reach(s) { ReachableContained(s.heap, Roots(s), iset{}, x); }
    }
  }

  ghost predicate Runs(s: State, acts: seq<Action>)
    requires Inv(s)
    decreases |acts|
  {
    acts == [] || (Enabled(s, acts[0]) && (ActionKeeps(s, acts[0]); Runs(Next(s, acts[0]), acts[1..])))
  }

  ghost function After(s: State, acts: seq<Action>): (s': State)
    requires Inv(s) && Runs(s, acts)
    ensures Inv(s')
    decreases |acts|
  {
    if acts == [] then s else ActionKeeps(s, acts[0]); After(Next(s, acts[0]), acts[1..])
  }

  /** x exists, and its buffer or value is the same. */
  ghost predicate SameNode(h: Heap, h': Heap, x: Node) {
    match x
    case O(o) => o < |h.buffers| && o < |h'.buffers| && h'.buffers[o] == h.buffers[o]
    case V(r) => r < |h.vvalues| && r < |h'.vvalues| && h'.vvalues[r] == h.vvalues[r]
  }

  /** x is still allocated and live, and its buffer or value is what it was. */
  ghost predicate Untouched(s: State, s': State, x: Node) {
    NodeAllocated(s', x) && Live(s', x) && SameNode(s.heap, s'.heap, x)
  }

  /** In every run, whatever the threads reach is allocated and of the right kind, and whatever the collector does
      next leaves it so, with its content. */
  lemma LiveStaysAllocated(orefs: nat, vrefs: nat, acts: seq<Action>, x: Node)
    requires orefs > 0 && vrefs > 0 && Inv(Initial(orefs, vrefs)) && Runs(Initial(orefs, vrefs), acts)
    requires Live(After(Initial(orefs, vrefs), acts), x)
    ensures var s := After(Initial(orefs, vrefs), acts);
            && NodeAllocated(s, x) && ContentsFit(s.heap, x)
            && forall a :: Enabled(s, a) && Collects(a) ==> Untouched(s, Next(s, a), x)
  {
    var s := After(Initial(orefs, vrefs), acts);
    LiveReached(s, x);
    hide Enabled, Next, Runs, Untouched;
    forall a | Enabled(s, a) && Collects(a) ensures Untouched(s, Next(s, a), x) {
      CollectorLeavesLive(s, a, x);
    }
  }

  lemma StacksKept(s: State, a: Action)
    requires Shapes(s) && Enabled(s, a) && Collects(a)
    ensures Next(s, a).stacks == s.stacks && Slots(Next(s, a)) == Slots(s)
  {
    hide Shade, ShadeStacks, MarkedColors, FreeList.Apply, FreeList.Enabled;
    assert Next(s, a).stacks == s.stacks;
    hide Next, Enabled;
    forall w ensures InSlot(Next(s, a), w) == InSlot(s, w) {}
  }

  /** No action of the collector changes what a live node holds; its buffer is the same as before. */
  lemma CollectorLeavesLive(s: State, a: Action, x: Node)
    requires Inv(s) && Enabled(s, a) && Collects(a) && Live(s, x)
    ensures Untouched(s, Next(s, a), x)
  {
    hide Grounded, TriColor, Settled, FreeList.Sound, Enabled, Next, Reach;
    CollectionKeeps(s, a);
    var s' := Next(s, a);
    StacksKept(s, a);
    hide Inv, Contents;
    var p :| IsPath(s.heap, Slots(s), p) && p[|p| - 1] == x;
    forall i | 0 <= i < |p| - 1 ensures Edge(s'.heap, p[i], p[i + 1]) {
      PrefixLive(s, p, i);
      LiveReached(s, p[i]);
      LiveCells(s, a, p[i]);
      assert Edge(s.heap, p[i], p[i + 1]);
    }
    assert IsPath(s'.heap, Slots(s'), p);
    LiveReached(s, x);
    LiveCells(s, a, x);
    LiveReached(s', x);
    ReachedAllocated(s', x);
  }

  lemma ReachedAllocated(s: State, x: Node)
    requires Inv(s) && x in Reach(s)
    ensures NodeAllocated(s, x)
    ensures match x case O(o) => o < |s.heap.buffers| case V(r) => r < |s.heap.vvalues|
  {
  }

  lemma PrefixLive(s: State, p: seq<Node>, i: nat)
    requires IsPath(s.heap, Slots(s), p) && i < |p|
    ensures Live(s, p[i])
  {
    var q := p[..i + 1];
    assert IsPath(s.heap, Slots(s), q);
  }

  /** But for what sweep frees, the collector leaves the heap alone. */
  lemma HeapKept(s: State, a: Action)
    requires Shapes(s) && Enabled(s, a) && Collects(a)
    ensures Next(s, a).heap == if a.FreeOref? then s.heap.(buffers := s.heap.buffers[a.n := NoBuffer])
                               else if a.FreeVref? then s.heap.(vvalues := s.heap.vvalues[a.n := Nil])
                               else s.heap
    ensures a.FreeOref? ==> a.n < |s.heap.buffers|
    ensures a.FreeVref? ==> a.n < |s.heap.vvalues|
  {
    hide Shade, ShadeStacks, MarkedColors, FreeList.Apply, FreeList.Enabled;
  }

  lemma LiveCells(s: State, a: Action, x: Node)
    requires Inv(s) && Enabled(s, a) && Collects(a) && x in Reach(s)
    ensures SameNode(s.heap, Next(s, a).heap, x) && Contents(Next(s, a).heap, x) == Contents(s.heap, x)
  {
    assert NodeAllocated(s, x);
    HeapKept(s, a);
    hide Enabled, Next, Reach, Grounded, TriColor, Settled, FreeList.Sound;
    if a.FreeOref? { FreeOrefKeeps(s, a.n); }
    if a.FreeVref? { FreeVrefKeeps(s, a.n); }
  }
}
