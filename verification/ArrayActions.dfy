/** The array operations are Resize actions of the collector machine. */
module ArrayActions {
  import opened Objects
  import opened Arrays
  import Collector
  import Steps

  /** The buffer of an array with these elements. */
  ghost predicate BufferOf(b: Buffer, e: seq<Value>) {
    if e == [] then b == NoBuffer else b.Cells? && Terminated(b.cells, |e|) && b.cells[..|e|] == e
  }

  /** What a scan of the buffer left by an operation sees. */
  lemma ScanSeesElements(b: Buffer, e: seq<Value>)
    requires BufferOf(b, e)
    ensures Scanned(b) == e && !b.Chars? && (b.Cells? ==> LiveCount(b.cells) < |b.cells|)
  {
    if e != [] { LiveCountIs(b.cells, |e|); }
  }

  /** The buffer of oref o. */
  ghost function BufferAt(st: Store, o: nat): Buffer
    requires Owned(st) && o < |st.ptr|
  {
    if st.ptr[o] == 0 then NoBuffer else assert Owns(st, o, st.ptr[o]); Cells(st.mem[st.ptr[o]])
  }

  /** Every array has such a buffer. */
  lemma OwnedBuffer(st: Store, o: nat)
    requires Owned(st) && o < |st.ptr|
    ensures BufferOf(BufferAt(st, o), Elements(st, o))
  {
    if st.ptr[o] != 0 { assert Owns(st, o, st.ptr[o]); }
  }

  /** What the collector scans of an array are its elements. */
  lemma ScanIsArray(st: Store, o: nat)
    requires Owned(st) && o < |st.ptr|
    ensures Scanned(BufferAt(st, o)) == Elements(st, o)
  {
    OwnedBuffer(st, o);
    ScanSeesElements(BufferAt(st, o), Elements(st, o));
  }

  /** What aadd, asize, ains and adel make of the elements. */
  ghost predicate Changed(e: seq<Value>, e': seq<Value>, v: Value) {
    || e' == e + [v]
    || (exists now: nat :: e' == Resized(e, now))
    || (exists pos: nat :: 1 <= pos <= |e| && (e' == Inserted(e, pos) || e' == Deleted(e, pos)))
  }

  lemma ResizedFrom(e: seq<Value>, now: nat)
    ensures forall w :: w in Resized(e, now) ==> w in e || w == Nil
  {
  }

  lemma ShiftedFrom(e: seq<Value>, pos: nat)
    requires 1 <= pos <= |e|
    ensures forall w :: w in Inserted(e, pos) || w in Deleted(e, pos) ==> w in e || w == Nil
  {
  }

  lemma ChangedFrom(e: seq<Value>, e': seq<Value>, v: Value)
    requires Changed(e, e', v)
    ensures forall w :: w in e' ==> w in e || w == v || w == Nil
  {
    hide Resized, Inserted, Deleted;
    if now: nat :| e' == Resized(e, now) {
      ResizedFrom(e, now);
    } else if pos: nat :| 1 <= pos <= |e| && (e' == Inserted(e, pos) || e' == Deleted(e, pos)) {
      ShiftedFrom(e, pos);
    }
  }

  /** An operation that leaves the elements e' where e was, is the Resize action: aadd with the value added, asize, ains
      and adel with any held value. asize to 0 leaves no buffer. */
  lemma OperationIsResize(s: Collector.State, o: nat, e: seq<Value>, b: Buffer, e': seq<Value>, v: Value)
    requires o < |s.heap.buffers| && Scanned(s.heap.buffers[o]) == e && BufferOf(b, e') && Changed(e, e', v)
    ensures Collector.FromOld(s, o, b, v)
  {
    hide Changed, Scanned, LiveCount, BufferOf;
    ScanSeesElements(b, e');
    ChangedFrom(e, e', v);
  }

  /** The heap of the machine holds the arrays of the runtime. */
  ghost predicate Mirrors(h: Heap, st: Store)
    requires Owned(st)
  {
    |h.buffers| == |st.ptr| && forall u: nat :: u < |st.ptr| && !h.buffers[u].Chars? ==> Contents(h, O(u)) == Elements(st, u)
  }

  /** An array operation of the runtime, from st to st', is a step of the machine, after which the machine's heap holds the
      arrays of st'. The array is still reached, and so is all that is in it. */
  lemma OperationStep(s: Collector.State, st: Store, st': Store, o: nat, v: Value)
    requires Owned(st) && Owned(st') && |st'.ptr| == |st.ptr| == |s.heap.buffers| && o < |st.ptr| && Mirrors(s.heap, st)
    requires Changed(Elements(st, o), Elements(st', o), v)
    requires forall u: nat :: u < |st.ptr| && u != o ==> Elements(st', u) == Elements(st, u)
    requires Collector.Shapes(s) && Collector.Live(s, O(o)) && !s.heap.buffers[o].Chars?
    requires Collector.Held(s, v) && !Collector.Scanning(s, o)
    ensures var a := Collector.Resize(o, BufferAt(st', o), v);
            && Collector.Enabled(s, a) && Mirrors(Collector.Next(s, a).heap, st')
            && Collector.Next(s, a).stacks == s.stacks && Collector.Live(Collector.Next(s, a), O(o))
            && forall w :: w in Elements(st', o) && Target(w).Some? ==> Collector.Live(Collector.Next(s, a), Target(w).value)
  {
    hide *;
    var b := BufferAt(st', o);
    MirrorsAt(s.heap, st, o);
    OwnedBuffer(st', o);
    ScanSeesElements(b, Elements(st', o));
    OperationIsResize(s, o, Elements(st, o), b, Elements(st', o), v);
    ResizeAllowed(s, o, b, v);
    Steps.ResizeDoes(s, o, b, v);
    Steps.ResizeReaches(s, o, b, v);
    ResizeKeepsChars(s, o, b, v);
    MirrorsOn(s.heap, Collector.Next(s, Collector.Resize(o, b, v)).heap, st, st', o);
  }

  lemma MirrorsAt(h: Heap, st: Store, o: nat)
    requires Owned(st) && Mirrors(h, st) && o < |st.ptr| && !h.buffers[o].Chars?
    ensures |h.buffers| == |st.ptr| && Scanned(h.buffers[o]) == Elements(st, o)
  {
    assert Contents(h, O(o)) == Scanned(h.buffers[o]);
  }

  lemma MirrorsOn(h: Heap, h': Heap, st: Store, st': Store, o: nat)
    requires Owned(st) && Owned(st') && Mirrors(h, st) && |st'.ptr| == |st.ptr| && |h'.buffers| == |h.buffers|
    requires Steps.SameBut(h, h', iset{O(o)}) && o < |st.ptr| && Contents(h', O(o)) == Elements(st', o)
    requires forall u: nat :: u < |h'.buffers| ==> h'.buffers[u].Chars? == h.buffers[u].Chars?
    requires forall u: nat :: u < |st.ptr| && u != o ==> Elements(st', u) == Elements(st, u)
    ensures Mirrors(h', st')
  {
    hide Owned, Elements, Contents;
  }

  lemma ResizeAllowed(s: Collector.State, o: nat, b: Buffer, v: Value)
    requires Collector.Shapes(s) && Collector.Live(s, O(o)) && o < |s.heap.buffers| && !s.heap.buffers[o].Chars?
    requires Collector.Held(s, v) && !Collector.Scanning(s, o) && Collector.FromOld(s, o, b, v)
    ensures Collector.Enabled(s, Collector.Resize(o, b, v))
  {
  }

  lemma ResizeKeepsChars(s: Collector.State, o: nat, b: Buffer, v: Value)
    requires Collector.Shapes(s) && Collector.Enabled(s, Collector.Resize(o, b, v))
    ensures var h' := Collector.Next(s, Collector.Resize(o, b, v)).heap;
            |h'.buffers| == |s.heap.buffers| && forall u: nat :: u < |h'.buffers| ==> h'.buffers[u].Chars? == s.heap.buffers[u].Chars?
  {
    hide Collector.ShadeIfMarking, Collector.Held, Collector.Live;
  }
}
