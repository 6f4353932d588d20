/** The tables of ccclib/src/variable.cpp and the functions that work on them in place. Each method is tied to
    the collector machine: what it leaves behind is what the machine's actions leave behind. */
module Vartab {
  import opened Basics
  import opened Objects
  import opened Collector
  import opened Safety
  import FreeList

  /** The orefs that are black. */
  ghost function Blacks(color: seq<int>, gc: int): (b: set<nat>)
    ensures forall o: nat :: o in b <==> o < |color| && color[o] == gc
  {
    set o: nat | o in FreeList.Below(|color|) && color[o] == gc
  }

  lemma OneMoreBlack(color: seq<int>, gc: int, o: nat)
    requires o < |color| && color[o] != gc
    ensures |Blacks(color[o := gc], gc)| == |Blacks(color, gc)| + 1
  {
    assert Blacks(color[o := gc], gc) == Blacks(color, gc) + {o};
  }

  /** A shading turns nothing but its target non-white, and the value behind a ref. */
  lemma ShadeOnly(h: Heap, m: Marks, gc: int, v: Value, x: Node)
    requires Fits(h, v)
    ensures var m' := Shade(h, m, gc, v);
            Color(m', x) == Color(m, x) || Target(v) == Some(x) || (v.Ref? && Target(h.vvalues[v.vref]) == Some(x))
  {
  }

  /** The mark stack never needs more slots than there are orefs. */
  lemma StackBound(h: Heap, m: Marks, gc: int)
    requires MarkShape(h, m, gc)
    ensures |m.stack| <= |m.ocolor|
    ensures forall o: nat :: o < |m.ocolor| && o !in m.stack ==> |m.stack| < |m.ocolor|
  {
    FreeList.DistinctCount(m.stack);
    forall o | o in m.stack ensures o < |m.ocolor| { assert Fits(h, Container(Array, Some(o))); }
    SubsetSize(FreeList.Elements(m.stack), FreeList.Below(|m.ocolor|));
    forall o: nat | o < |m.ocolor| && o !in m.stack ensures |m.stack| < |m.ocolor| {
      SubsetSize(FreeList.Elements(m.stack), FreeList.Below(|m.ocolor|) - {o});
    }
  }

  /** So far marking has coloured live nodes only, and left the colours of the others alone. */
  ghost predicate OnlyLive(s0: State, m: Marks, gc: int) {
    && (forall x :: Color(m, x) >= gc ==> Live(s0, x))
    && (forall x :: Color(m, x) < gc ==> Color(m, x) == Color(s0.marks, x))
  }

  lemma ShadeOnlyLive(s0: State, m: Marks, gc: int, v: Value)
    requires OnlyLive(s0, m, gc) && FitsDeep(s0.heap, v)
    requires Target(v).Some? ==> Live(s0, Target(v).value)
    ensures OnlyLive(s0, Shade(s0.heap, m, gc, v), gc)
  {
    var m' := Shade(s0.heap, m, gc, v);
    forall x | Color(m', x) != Color(m, x) ensures Live(s0, x) && Color(m', x) >= gc {
      ShadeOnly(s0.heap, m, gc, v, x);
      if Target(v) != Some(x) {
        StepReachable(s0.heap, Slots(s0), V(v.vref), s0.heap.vvalues[v.vref]);
      }
    }
  }

  ghost predicate Tracks(s0: State, s: State) {
    SameObjects(s0, s) && OnlyLive(s0, s.marks, s.gc)
  }

  lemma PopTracks(s0: State, s: State)
    requires Inv(s) && Enabled(s, PopGray) && Tracks(s0, s)
    ensures Tracks(s0, PoppedOne(s))
  {
    PopGrayShape(s);
    var o := s.marks.stack[|s.marks.stack| - 1];
    assert forall x :: x != O(o) ==> Color(PoppedOne(s).marks, x) == Color(s.marks, x);
    assert Color(s.marks, O(o)) == s.gc + 1;
  }

  /** The state after mark_pop has returned a container and it has been blackened. */
  function PoppedOne(s: State): State
    requires |s.marks.stack| > 0
  {
    var o := s.marks.stack[|s.marks.stack| - 1];
    s.(marks := Popped(s.marks, s.gc),
       phase := Marking(if o < |s.heap.buffers| && s.heap.buffers[o].Cells? then At(o, 0) else NoCursor))
  }

  /** The state after one turn of the scan loop. */
  function ScannedOne(s: State, o: nat, i: nat, v: Value): State {
    s.(marks := Shade(s.heap, s.marks, s.gc, v), phase := Marking(At(o, i + 1)))
  }

  lemma ScanInv(s: State, o: nat, i: nat)
    requires Inv(s) && s.phase == Marking(At(o, i)) && i < |Contents(s.heap, O(o))|
    ensures Inv(ScannedOne(s, o, i, Contents(s.heap, O(o))[i]))
  {
    hide Inv;
    CollectionKeeps(s, ScanCell);
  }

  lemma ScanTracks(s0: State, s: State, o: nat, i: nat)
    requires Inv(s) && s.phase == Marking(At(o, i)) && i < |Contents(s.heap, O(o))| && Tracks(s0, s)
    ensures var s' := ScannedOne(s, o, i, Contents(s.heap, O(o))[i]); Inv(s') && Tracks(s0, s')
  {
    var v := Contents(s.heap, O(o))[i];
    ScanInv(s, o, i);
    ScanShade(s);
    CursorBlack(s);
    hide Inv;
    if Target(v).Some? {
      StepReachable(s0.heap, Slots(s0), O(o), v);
    }
    ShadeOnlyLive(s0, s.marks, s.gc, v);
  }

  lemma CursorBlack(s: State)
    requires Inv(s) && s.phase.Marking? && s.phase.cursor.At?
    ensures Color(s.marks, O(s.phase.cursor.o)) == s.gc
  {
  }

  /** All black and only the live: the colours an uninterrupted mark leaves. */
  lemma MarkedExactly(s0: State, m: Marks)
    requires Shapes(s0) && OnlyLive(s0, m, s0.gc + 1) && m.stack == []
    requires |m.ocolor| == |s0.marks.ocolor| && |m.vcolor| == |s0.marks.vcolor|
    requires forall x :: Live(s0, x) ==> Color(m, x) == s0.gc + 1
    ensures m == MarkedColors(s0)
  {
    forall o: nat | o < |m.ocolor| ensures m.ocolor[o] == MarkedColors(s0).ocolor[o] {
      assert Color(m, O(o)) == m.ocolor[o] && Color(s0.marks, O(o)) == s0.marks.ocolor[o];
    }
    forall r: nat | r < |m.vcolor| ensures m.vcolor[r] == MarkedColors(s0).vcolor[r] {
      assert Color(m, V(r)) == m.vcolor[r] && Color(s0.marks, V(r)) == s0.marks.vcolor[r];
    }
  }

  lemma MarkedIsLive(s0: State)
    requires Inv(s0) && s0.phase == Idle
    ensures var m := MarkedColors(s0);
            && (forall o: nat :: o < |m.ocolor| ==> (m.ocolor[o] >= s0.gc + 1 <==> Live(s0, O(o))))
            && (forall r: nat :: r < |m.vcolor| ==> (m.vcolor[r] >= s0.gc + 1 <==> Live(s0, V(r))))
  {
    assert forall o: nat :: o < |s0.marks.ocolor| ==> Color(s0.marks, O(o)) == s0.marks.ocolor[o];
    assert forall r: nat :: r < |s0.marks.vcolor| ==> Color(s0.marks, V(r)) == s0.marks.vcolor[r];
  }

  /** The orefs the threads can reach. */
  ghost function LiveOrefs(s: State): (b: set<nat>)
    ensures forall o: nat :: o in b <==> o < |s.heap.buffers| && Live(s, O(o))
  {
    set o: nat | o in FreeList.Below(|s.heap.buffers|) && Live(s, O(o))
  }

  class Tables {
    const buffers: array<Buffer>
    const ocolor: array<int>
    const olink: array<int>
    const vvalues: array<Value>
    const vcolor: array<int>
    const vlink: array<int>
    const markStack: array<nat>
    var markPtr: nat
    var onext: int
    var olast: int
    var ofree: int
    var vnext: int
    var vlast: int
    var vfree: int
    var gcCount: int
    var oresv: nat
    var stacks: seq<seq<Value>>

    ghost predicate Wired()
      reads this
    {
      && ocolor.Length == olink.Length == markStack.Length == buffers.Length
      && vcolor.Length == vlink.Length == vvalues.Length <= buffers.Length
      && ocolor != olink && ocolor != vcolor && ocolor != vlink
      && olink != vcolor && olink != vlink && vcolor != vlink
      && markPtr <= markStack.Length
      && (markStack as object) != ocolor && (markStack as object) != vcolor
      && (markStack as object) != olink && (markStack as object) != vlink
    }

    ghost function Marks(): Marks
      reads this, ocolor, vcolor, markStack
      requires Wired()
    {
      Collector.Marks(ocolor[..], vcolor[..], markStack[..markPtr])
    }

    ghost function Objects(): Heap
      reads this, buffers, vvalues
    {
      Heap(buffers[..], vvalues[..])
    }

    ghost function Orefs(): FreeList.List
      reads this, olink
    {
      FreeList.List(olink[..], onext, olast, ofree, FreeList.Resting, false, 0)
    }

    ghost function Vrefs(): FreeList.List
      reads this, vlink
    {
      FreeList.List(vlink[..], vnext, vlast, vfree, FreeList.Resting, false, 0)
    }

    /** The machine state the tables stand for, at the given phase of the collector. */
    ghost function Abs(phase: Phase): State
      reads this, buffers, vvalues, ocolor, vcolor, olink, vlink, markStack
      requires Wired()
    {
      State(Objects(), Marks(), gcCount, Orefs(), Vrefs(), stacks, phase)
    }

    ghost predicate Valid(phase: Phase)
      reads this, buffers, vvalues, ocolor, vcolor, olink, vlink, markStack
    {
      Wired() && Inv(Abs(phase))
    }

    /** vartab_ini, with the vref table already limited to half the oref table. */
    constructor (orefSize: nat, vrefSize: nat)
      requires 0 < vrefSize <= orefSize / 2
      ensures Valid(Idle) && Abs(Idle) == Initial(orefSize, vrefSize)
    {
      buffers := new Buffer[orefSize](_ => NoBuffer);
      ocolor := new int[orefSize](_ => 0);
      olink := new int[orefSize](n => n + 1);
      vvalues := new Value[vrefSize](_ => Nil);
      vcolor := new int[vrefSize](_ => 0);
      vlink := new int[vrefSize](n => n + 1);
      markStack := new nat[orefSize](_ => 0);
      markPtr, oresv := 0, 0;
      onext, olast, ofree := 0, orefSize - 1, orefSize - 1;
      vnext, vlast, vfree := 0, vrefSize - 1, vrefSize - 1;
      gcCount, stacks := 0, [[]];
      new;
      hide Inv, Initial;
      assert Wired() && markStack[..0] == [];
      InitialIs(orefSize, vrefSize, buffers[..], ocolor[..], olink[..], vvalues[..], vcolor[..], vlink[..]);
      assert Abs(Idle) == Initial(orefSize, vrefSize);
      InitialInv(orefSize, vrefSize);
    }

    /** mark_push. */
    method MarkPush(o: nat)
      requires Wired() && markPtr < markStack.Length
      modifies this`markPtr, markStack
      ensures Wired() && markPtr == old(markPtr) + 1
      ensures markStack[..markPtr] == old(markStack[..markPtr]) + [o]
    {
      markStack[markPtr] := o;
      markPtr := markPtr + 1;
    }

    /** The text branch of vartab_shade: black at once, and counted. */
    method Blacken(o: nat)
      requires o < ocolor.Length && ocolor[o] != gcCount
      modifies this`oresv, ocolor
      ensures ocolor[..] == old(ocolor[..])[o := gcCount]
      ensures oresv == old(oresv) + 1
      ensures |Blacks(ocolor[..], gcCount)| == |Blacks(old(ocolor[..]), gcCount)| + 1
    {
      OneMoreBlack(ocolor[..], gcCount, o);
      ocolor[o] := gcCount;
      oresv := oresv + 1;
    }

    /** The container branch of vartab_shade: gray, and pushed. */
    method Gray(o: nat)
      requires Wired() && o < ocolor.Length && ocolor[o] < gcCount && markPtr < markStack.Length
      modifies this`markPtr, ocolor, markStack
      ensures Wired() && ocolor[..] == old(ocolor[..])[o := gcCount + 1]
      ensures markStack[..markPtr] == old(markStack[..markPtr]) + [o]
      ensures Blacks(ocolor[..], gcCount) == Blacks(old(ocolor[..]), gcCount)
    {
      ocolor[o] := gcCount + 1;
      MarkPush(o);
    }

    /** vartab_shade on a value that is not a ref. */
    method ShadeFlatValue(v: Value)
      requires Wired() && MarkShape(Objects(), Marks(), gcCount) && Fits(Objects(), v) && !v.Ref?
      modifies this`markPtr, this`oresv, ocolor, markStack
      ensures Wired() && Marks() == ShadeFlat(old(Marks()), gcCount, v)
      ensures oresv >= old(oresv)
      ensures oresv + |Blacks(old(ocolor[..]), gcCount)| == old(oresv) + |Blacks(ocolor[..], gcCount)|
    {
      match v
      case Text(Some(o)) =>
        if ocolor[o] != gcCount {
          Blacken(o);
        }
      case Container(_, Some(o)) =>
        if ocolor[o] < gcCount {
          StackBound(Objects(), Marks(), gcCount);
          assert Marks().ocolor[o] == ocolor[o];
          Gray(o);
        }
      case _ =>
    }

    /** vartab_shade. */
    method ShadeValue(v: Value)
      requires Wired() && MarkShape(Objects(), Marks(), gcCount) && FitsDeep(Objects(), v)
      modifies this`markPtr, this`oresv, ocolor, vcolor, markStack
      ensures Wired() && Marks() == Shade(Objects(), old(Marks()), gcCount, v)
      ensures oresv >= old(oresv)
      ensures oresv + |Blacks(old(ocolor[..]), gcCount)| == old(oresv) + |Blacks(ocolor[..], gcCount)|
    {
      if v.Ref? {
        ShadeFlatValue(vvalues[v.vref]);
        vcolor[v.vref] := gcCount;
      } else {
        ShadeFlatValue(v);
      }
    }

    /** mark_pop, and the container is black. */
    method PopBlack() returns (o: nat)
      requires Valid(Marking(NoCursor)) && markPtr > 0
      modifies this`markPtr, ocolor
      ensures Wired() && o < buffers.Length && !buffers[o].Chars?
      ensures var phase := Marking(if buffers[o].Cells? then At(o, 0) else NoCursor);
              Valid(phase) && Abs(phase) == PoppedOne(old(Abs(Marking(NoCursor))))
      ensures |Blacks(ocolor[..], gcCount)| == |Blacks(old(ocolor[..]), gcCount)| + 1
    {
      hide Inv, PoppedOne, MarkShape, Blacks;
      ghost var s := Abs(Marking(NoCursor));
      PopLeaves(s);
      markPtr := markPtr - 1;
      o := markStack[markPtr];
      assert s.marks.stack == markStack[..markPtr] + [o];
      ocolor[o] := gcCount;
      OneMoreBlack(s.marks.ocolor, gcCount, o);
      assert Marks() == Collector.Marks(s.marks.ocolor[o := gcCount], s.marks.vcolor, s.marks.stack[..|s.marks.stack| - 1]);
      assert Abs(Marking(if buffers[o].Cells? then At(o, 0) else NoCursor)) == PoppedOne(s);
    }

    /** The body of mark's loop: one container is popped, and every cell in front of its End is shaded. */
    method ScanContainer(ghost s0: State)
      requires Valid(Marking(NoCursor)) && markPtr > 0 && Tracks(s0, Abs(Marking(NoCursor)))
      requires oresv == |Blacks(ocolor[..], gcCount)|
      modifies this`markPtr, this`oresv, ocolor, vcolor, markStack
      ensures Valid(Marking(NoCursor)) && Tracks(s0, Abs(Marking(NoCursor)))
      ensures oresv == |Blacks(ocolor[..], gcCount)| > |Blacks(old(ocolor[..]), gcCount)|
    {
      hide Inv, Tracks, PoppedOne, MarkShape, FitsDeep, Contents, Shade, Blacks;
      PopEnabled(Abs(Marking(NoCursor)));
      PopTracks(s0, Abs(Marking(NoCursor)));
      var o := PopBlack();
      if buffers[o].Cells? {
        var cells := buffers[o].cells;
        ScanEnds(Abs(Marking(At(o, 0))), o);
        var i := 0;
        while !cells[i].End?
          invariant i <= LiveCount(cells) < |cells|
          invariant Valid(Marking(At(o, i))) && Tracks(s0, Abs(Marking(At(o, i))))
          invariant oresv + 1 == |Blacks(ocolor[..], gcCount)| > |Blacks(old(ocolor[..]), gcCount)|
          decreases LiveCount(cells) - i
        {
          ghost var s := Abs(Marking(At(o, i)));
          CellFits(s, o, i, cells);
          ScanTracks(s0, s, o, i);
          ShadeValue(cells[i]);
          assert Abs(Marking(At(o, i + 1))) == ScannedOne(s, o, i, cells[i]);
          i := i + 1;
        }
        FinishScan(s0, Abs(Marking(At(o, i))), o, i, cells);
      }
      oresv := oresv + 1;
    }

    /** Shading one stack. */
    method ShadeStack(vs: seq<Value>)
      requires Wired() && MarkShape(Objects(), Marks(), gcCount)
      requires forall v :: v in vs ==> FitsDeep(Objects(), v)
      modifies this`markPtr, this`oresv, ocolor, vcolor, markStack
      ensures Wired() && Marks() == ShadeAll(Objects(), old(Marks()), gcCount, vs)
      ensures MarkShape(Objects(), Marks(), gcCount)
      ensures oresv + |Blacks(old(ocolor[..]), gcCount)| == old(oresv) + |Blacks(ocolor[..], gcCount)|
    {
      hide MarkShape, FitsDeep, Shade;
      var i := 0;
      assert vs[0..] == vs;
      while i < |vs|
        invariant i <= |vs| && Wired() && MarkShape(Objects(), Marks(), gcCount)
        invariant ShadeAll(Objects(), Marks(), gcCount, vs[i..]) == ShadeAll(Objects(), old(Marks()), gcCount, vs)
        invariant oresv + |Blacks(old(ocolor[..]), gcCount)| == old(oresv) + |Blacks(ocolor[..], gcCount)|
      {
        assert vs[i..][0] == vs[i] && vs[i..][1..] == vs[i + 1..];
        ShadeDarkens(Objects(), Marks(), gcCount, vs[i]);
        ShadeValue(vs[i]);
        i := i + 1;
      }
    }

    /** The root loops of vartab_mark. */
    method ShadeRoots()
      requires Wired() && MarkShape(Objects(), Marks(), gcCount)
      requires forall t, v :: 0 <= t < |stacks| && v in stacks[t] ==> FitsDeep(Objects(), v)
      modifies this`markPtr, this`oresv, ocolor, vcolor, markStack
      ensures Wired() && Marks() == ShadeStacks(Objects(), old(Marks()), gcCount, stacks)
      ensures oresv + |Blacks(old(ocolor[..]), gcCount)| == old(oresv) + |Blacks(ocolor[..], gcCount)|
    {
      hide MarkShape, FitsDeep, Shade, ShadeAll;
      var t := 0;
      assert stacks[0..] == stacks;
      while t < |stacks|
        invariant t <= |stacks| && Wired() && MarkShape(Objects(), Marks(), gcCount)
        invariant ShadeStacks(Objects(), Marks(), gcCount, stacks[t..]) == ShadeStacks(Objects(), old(Marks()), gcCount, stacks)
        invariant oresv + |Blacks(old(ocolor[..]), gcCount)| == old(oresv) + |Blacks(ocolor[..], gcCount)|
      {
        assert stacks[t..][0] == stacks[t] && stacks[t..][1..] == stacks[t + 1..];
        ShadeStack(stacks[t]);
        t := t + 1;
      }
    }

    /** vartab_mark in the default mode: when it returns, black is exactly what the threads can reach, all
        other colours are what they were, and oresv counts the reachable orefs. */
    method Mark()
      requires Valid(Idle)
      modifies this`gcCount, this`markPtr, this`oresv, ocolor, vcolor, markStack
      ensures Valid(Sweeping) && gcCount == old(gcCount) + 1
      ensures Marks() == MarkedColors(old(Abs(Idle)))
      ensures forall o: nat :: o < ocolor.Length ==> (ocolor[o] >= gcCount <==> Live(old(Abs(Idle)), O(o)))
      ensures forall r: nat :: r < vcolor.Length ==> (vcolor[r] >= gcCount <==> Live(old(Abs(Idle)), V(r)))
      ensures oresv == |LiveOrefs(old(Abs(Idle)))|
    {
      hide Inv, Tracks, MarkShape, FitsDeep, MarkedColors, Live, ShadeStacks;
      ghost var s0 := Abs(Idle);
      StartFacts(s0);
      gcCount := gcCount + 1;
      markPtr, oresv := 0, 0;
      assert Marks() == s0.marks;
      assert Blacks(ocolor[..], gcCount) == {};
      ShadeRoots();
      StartMarking(s0, Abs(Marking(NoCursor)));
      while markPtr > 0
        invariant Valid(Marking(NoCursor)) && Tracks(s0, Abs(Marking(NoCursor)))
        invariant gcCount == s0.gc + 1
        invariant oresv == |Blacks(ocolor[..], gcCount)|
        decreases ocolor.Length - |Blacks(ocolor[..], gcCount)|
      {
        ScanContainer(s0);
        hide Blacks;
        SubsetSize(Blacks(ocolor[..], gcCount), FreeList.Below(ocolor.Length));
      }
      EndMarking(s0, Abs(Marking(NoCursor)));
      MarkedIsLive(s0);
    }

    /** The oref half of one turn of sweep's loop. */
    method SweepOref(n: nat) returns (freed: bool)
      requires Valid(Sweeping) && n < buffers.Length
      modifies buffers, olink, this`olast, this`ofree
      ensures Valid(Sweeping)
      ensures freed <==> FreeList.Allocated(old(Orefs()), n) && ocolor[n] < gcCount
      ensures forall m: nat :: FreeList.Allocated(Orefs(), m) <==> FreeList.Allocated(old(Orefs()), m) && !(freed && m == n)
      ensures buffers[..] == if freed then old(buffers[..])[n := NoBuffer] else old(buffers[..])
      ensures ofree == old(ofree) + if freed then 1 else 0
    {
      freed := false;
      if olink[n] != -1 {
      } else if n == olast {
      } else if ocolor[n] < gcCount {
        ghost var s := Abs(Sweeping);
        ReleaseOref(s, n);
        buffers[n] := NoBuffer;
        olink[olast] := n;
        olast := n;
        ofree := ofree + 1;
        freed := true;
        assert Abs(Sweeping) == FreedOref(s, n);
      }
    }

    /** The vref half. */
    method SweepVref(n: nat) returns (freed: bool)
      requires Valid(Sweeping) && n < vvalues.Length
      modifies vvalues, vlink, this`vlast, this`vfree
      ensures Valid(Sweeping)
      ensures freed <==> FreeList.Allocated(old(Vrefs()), n) && vcolor[n] < gcCount
      ensures forall m: nat :: FreeList.Allocated(Vrefs(), m) <==> FreeList.Allocated(old(Vrefs()), m) && !(freed && m == n)
      ensures vvalues[..] == if freed then old(vvalues[..])[n := Nil] else old(vvalues[..])
      ensures vfree == old(vfree) + if freed then 1 else 0
    {
      hide Inv;
      freed := false;
      if vlink[n] != -1 {
      } else if n == vlast {
      } else if vcolor[n] < gcCount {
        ghost var s := Abs(Sweeping);
        ReleaseVref(s, n);
        vvalues[n] := Nil;
        vlink[vlast] := n;
        vlast := n;
        vfree := vfree + 1;
        freed := true;
        assert Abs(Sweeping) == FreedVref(s, n);
      }
    }

    /** Both halves of one turn: the vref table is the shorter one. */
    method SweepOne(n: nat) returns (oinc: nat, vinc: nat)
      requires Valid(Sweeping) && n < buffers.Length
      modifies buffers, olink, vvalues, vlink, this`olast, this`ofree, this`vlast, this`vfree
      ensures Valid(Sweeping)
      ensures forall m: nat :: FreeList.Allocated(Orefs(), m) <==>
        FreeList.Allocated(old(Orefs()), m) && (m == n ==> ocolor[n] >= gcCount)
      ensures forall m: nat :: FreeList.Allocated(Vrefs(), m) <==>
        FreeList.Allocated(old(Vrefs()), m) && (m == n && n < vcolor.Length ==> vcolor[n] >= gcCount)
      ensures forall m: nat :: m < buffers.Length && m != n ==> buffers[m] == old(buffers[m])
      ensures buffers[n] == if FreeList.Allocated(old(Orefs()), n) && ocolor[n] < gcCount then NoBuffer else old(buffers[n])
      ensures ofree == old(ofree) + oinc && vfree == old(vfree) + vinc
    {
      hide Inv, FreeList.Allocated;
      oinc, vinc := 0, 0;
      if n < vvalues.Length {
        var vfreed := SweepVref(n);
        vinc := if vfreed then 1 else 0;
      }
      var ofreed := SweepOref(n);
      oinc := if ofreed then 1 else 0;
    }

    /** sweep: when it returns, exactly the allocated nodes that were not white are left. The flags are the
        overflow conditions under which the code gives up. */
    method Sweep() returns (orefOverflow: bool, vrefOverflow: bool)
      requires Valid(Sweeping)
      modifies buffers, olink, vvalues, vlink, this`olast, this`ofree, this`vlast, this`vfree
      ensures Valid(Idle)
      ensures forall m: nat :: FreeList.Allocated(Orefs(), m) <==>
        FreeList.Allocated(old(Orefs()), m) && m < ocolor.Length && ocolor[m] >= gcCount
      ensures forall m: nat :: FreeList.Allocated(Vrefs(), m) <==>
        FreeList.Allocated(old(Vrefs()), m) && m < vcolor.Length && vcolor[m] >= gcCount
      ensures forall m: nat :: m < buffers.Length ==>
        buffers[m] == if FreeList.Allocated(old(Orefs()), m) && ocolor[m] < gcCount then NoBuffer else old(buffers[m])
      ensures (orefOverflow <==> ofree == 0) && (vrefOverflow <==> vfree == 0)
    {
      hide Inv, FreeList.Allocated, Swept, Emptied, FreeList.Holds;
      FreeCounts(Abs(Sweeping));
      ghost var ol, vl, b, gc := Orefs(), Vrefs(), buffers[..], gcCount;
      NothingSwept(ol, vl, b, ocolor[..], vcolor[..], gc);
      var oincs, vincs := 0, 0;
      var n := 0;
      while n < buffers.Length
        invariant n <= buffers.Length && Valid(Sweeping)
        invariant Swept(ol, Orefs(), ocolor[..], gc, n) && Swept(vl, Vrefs(), vcolor[..], gc, n)
        invariant Emptied(b, buffers[..], ol, ocolor[..], gc, n)
        invariant ofree == old(ofree) + oincs && vfree == old(vfree) + vincs && oincs >= 0 && vincs >= 0
      {
        ghost var o1, v1, b1 := Orefs(), Vrefs(), buffers[..];
        var oinc, vinc := SweepOne(n);
        SweptMore(ol, o1, Orefs(), ocolor[..], gc, n);
        SweptMore(vl, v1, Vrefs(), vcolor[..], gc, n);
        EmptiedMore(b, b1, buffers[..], ol, o1, ocolor[..], gc, n);
        oincs, vincs := oincs + oinc, vincs + vinc;
        n := n + 1;
      }
      AllSwept(ol, Orefs(), ocolor[..], gc, n);
      AllSwept(vl, Vrefs(), vcolor[..], gc, n);
      AllEmptied(b, buffers[..], ol, ocolor[..], gc, n);
      FinishSweep(Abs(Sweeping));
      orefOverflow := ofree == 0 && oincs == 0;
      vrefOverflow := vfree == 0 && vincs == 0;
    }

    /** A whole collection while the mutators rest: what is left allocated is exactly what the threads can
        reach, with its contents as they were, and the free counts follow. */
    method Collect() returns (orefOverflow: bool, vrefOverflow: bool)
      requires Valid(Idle)
      modifies this, buffers, olink, vvalues, vlink, ocolor, vcolor, markStack
      ensures Valid(Idle) && stacks == old(stacks)
      ensures forall o: nat :: FreeList.Allocated(Orefs(), o) <==> Live(old(Abs(Idle)), O(o))
      ensures forall r: nat :: FreeList.Allocated(Vrefs(), r) <==> Live(old(Abs(Idle)), V(r))
      ensures forall o: nat :: Live(old(Abs(Idle)), O(o)) ==> o < buffers.Length && buffers[o] == old(buffers[o])
      ensures oresv == |LiveOrefs(old(Abs(Idle)))|
      ensures oresv + ofree + 1 == buffers.Length
      ensures (orefOverflow <==> oresv + 1 == buffers.Length) && (vrefOverflow <==> vfree == 0)
    {
      hide Inv, MarkedColors, Live, FreeList.Allocated;
      ghost var s := Abs(Idle);
      LiveAllocated(s);
      Mark();
      orefOverflow, vrefOverflow := Sweep();
      CollectedCount(s, Abs(Idle));
    }

    /** The part of oref_new behind the wait loop. */
    method TakeOrefCell(t: nat, w: Value, buffer: Buffer, ghost phase: Phase)
      requires Valid(phase) && 0 < t < |stacks| && onext != olast && onext >= 0
      requires if buffer == Chars then w == Text(Some(onext))
               else w.Container? && w.oref == Some(onext) && FromStack(Abs(phase), buffer)
      modifies this`onext, this`ofree, this`stacks, ocolor, olink, buffers
      ensures Valid(phase)
      ensures var o := old(onext);
        && o < buffers.Length && !FreeList.Allocated(old(Orefs()), o) && !Live(old(Abs(phase)), O(o))
        && (forall m: nat :: FreeList.Allocated(Orefs(), m) <==> FreeList.Allocated(old(Orefs()), m) || m == o)
        && buffers[..] == old(buffers[..])[o := buffer] && ocolor[..] == old(ocolor[..])[o := gcCount]
        && stacks == PushOn(old(stacks), t, w)
    {
      hide Inv, FromStack, FreeList.Allocated, Live;
      ghost var s := Abs(phase);
      NextInRange(s);
      AllocateOref(s, t, w, buffer);
      var o := onext;
      ocolor[o] := gcCount;
      onext := olink[o];
      olink[o] := -1;
      buffers[o] := buffer;
      stacks := stacks[t := stacks[t] + [w]];
      ofree := ofree - 1;
      assert Orefs() == TookOref(s, t, w, buffer).olist;
      assert Abs(phase) == TookOref(s, t, w, buffer);
    }

    /** oref_new on behalf of thread t, in any phase of the collector: one turn of its wait loop, and the allocation if
        a cell is free. */
    method OrefNew(t: nat, v: Value, buffer: Buffer, ghost phase: Phase) returns (ok: bool, o: nat)
      requires Valid(phase) && 0 < t < |stacks|
      requires v.Text? || v.Container?
      requires if v.Text? then buffer == Chars else FromStack(Abs(phase), buffer)
      modifies this`onext, this`ofree, this`stacks, ocolor, olink, buffers
      ensures Valid(phase)
      ensures ok <==> old(onext) != olast
      ensures !ok ==> Abs(phase) == old(Abs(phase))
      ensures ok ==> o < buffers.Length && !FreeList.Allocated(old(Orefs()), o) && !Live(old(Abs(phase)), O(o))
      ensures ok ==> forall m: nat :: FreeList.Allocated(Orefs(), m) <==> FreeList.Allocated(old(Orefs()), m) || m == o
      ensures ok ==> buffers[..] == old(buffers[..])[o := buffer] && ocolor[..] == old(ocolor[..])[o := gcCount]
      ensures ok ==> stacks == PushOn(old(stacks), t, if v.Text? then Text(Some(o)) else Container(v.kind, Some(o)))
    {
      hide Inv, FreeList.Allocated, Live;
      if onext == olast {
        return false, 0;
      }
      NextInRange(Abs(phase));
      ok, o := true, onext;
      TakeOrefCell(t, if v.Text? then Text(Some(onext)) else Container(v.kind, Some(onext)), buffer, phase);
    }

    /** vref_new on behalf of thread t, in any phase of the collector: its top becomes a ref to a new vref that holds
        what the top held. */
    method VrefNew(t: nat, ghost phase: Phase) returns (ok: bool, r: nat)
      requires Valid(phase) && 0 < t < |stacks| && |stacks[t]| > 0 && !stacks[t][|stacks[t]| - 1].Ref?
      modifies this`vnext, this`vfree, this`stacks, vcolor, vlink, vvalues
      ensures Valid(phase)
      ensures ok <==> old(vnext) != vlast
      ensures !ok ==> Abs(phase) == old(Abs(phase))
      ensures ok ==> r < vvalues.Length && !FreeList.Allocated(old(Vrefs()), r) && !Live(old(Abs(phase)), V(r))
      ensures ok ==> forall m: nat :: FreeList.Allocated(Vrefs(), m) <==> FreeList.Allocated(old(Vrefs()), m) || m == r
      ensures ok ==> var top := |old(stacks)[t]| - 1;
        vvalues[..] == old(vvalues[..])[r := old(stacks)[t][top]]
        && stacks == old(stacks)[t := old(stacks)[t][top := Ref(r)]]
    {
      hide Inv, Shapes, Reachable, FreeList.Allocated;
      if vnext == vlast {
        return false, 0;
      }
      ghost var s := Abs(phase);
      NextInRange(s);
      AllocateVref(s, t);
      r := vnext;
      vcolor[r] := gcCount;
      vnext := vlink[r];
      vlink[r] := -1;
      vvalues[r] := stacks[t][|stacks[t]| - 1];
      stacks := stacks[t := stacks[t][|stacks[t]| - 1 := Ref(r)]];
      vfree := vfree - 1;
      ok := true;
      assert Abs(phase) == TookVref(s, t);
    }
  }

  lemma PopEnabled(s: State)
    requires Inv(s) && s.phase == Marking(NoCursor) && |s.marks.stack| > 0
    ensures Enabled(s, PopGray)
  {
  }

  /** The state PopGray leaves, spelled out. */
  lemma PopLeaves(s: State)
    requires Inv(s) && s.phase == Marking(NoCursor) && |s.marks.stack| > 0
    ensures Enabled(s, PopGray) && Next(s, PopGray) == PoppedOne(s) && Inv(PoppedOne(s))
    ensures var o := s.marks.stack[|s.marks.stack| - 1];
            && o < |s.heap.buffers| && !s.heap.buffers[o].Chars? && s.marks.ocolor[o] == s.gc + 1
            && PoppedOne(s) == s.(
                 marks := Marks(s.marks.ocolor[o := s.gc], s.marks.vcolor, s.marks.stack[..|s.marks.stack| - 1]),
                 phase := Marking(if s.heap.buffers[o].Cells? then At(o, 0) else NoCursor))
  {
    PopGrayShape(s);
    assert s.marks.stack[|s.marks.stack| - 1] in s.marks.stack;
    hide Grounded, Reach;
    CollectionKeeps(s, PopGray);
  }

  lemma CellFits(s: State, o: nat, i: nat, cells: seq<Value>)
    requires Inv(s) && s.phase == Marking(At(o, i))
    requires o < |s.heap.buffers| && s.heap.buffers[o] == Cells(cells) && i < LiveCount(cells)
    ensures MarkShape(s.heap, s.marks, s.gc)
    ensures i < |Contents(s.heap, O(o))| && Contents(s.heap, O(o))[i] == cells[i] && FitsDeep(s.heap, cells[i])
  {
    ScanShade(s);
  }

  /** The buffer being scanned has an End. */
  lemma ScanEnds(s: State, o: nat)
    requires Inv(s) && s.phase.Marking? && s.phase.cursor.At? && s.phase.cursor.o == o
    ensures o < |s.heap.buffers| && (s.heap.buffers[o].Cells? ==> LiveCount(s.heap.buffers[o].cells) < |s.heap.buffers[o].cells|)
  {
    assert Fits(s.heap, Container(Array, Some(o)));
  }

  /** The End has been met: the cursor is dropped. */
  lemma FinishScan(s0: State, s: State, o: nat, i: nat, cells: seq<Value>)
    requires Inv(s) && s.phase == Marking(At(o, i)) && Tracks(s0, s)
    requires o < |s.heap.buffers| && s.heap.buffers[o] == Cells(cells) && i == LiveCount(cells)
    ensures Inv(s.(phase := Marking(NoCursor))) && Tracks(s0, s.(phase := Marking(NoCursor)))
  {
    CollectionKeeps(s, ScanCell);
  }

  lemma StartFacts(s0: State)
    requires Inv(s0) && s0.phase == Idle
    ensures s0.marks.stack == [] && MarkShape(s0.heap, s0.marks, s0.gc + 1)
    ensures forall t, v :: 0 <= t < |s0.stacks| && v in s0.stacks[t] ==> FitsDeep(s0.heap, v)
    ensures Blacks(s0.marks.ocolor, s0.gc + 1) == {}
  {
    forall o: nat | o < |s0.marks.ocolor| ensures s0.marks.ocolor[o] <= s0.gc { assert Color(s0.marks, O(o)) <= s0.gc; }
    forall r: nat | r < |s0.marks.vcolor| ensures s0.marks.vcolor[r] <= s0.gc { assert Color(s0.marks, V(r)) <= s0.gc; }
    forall t, v | 0 <= t < |s0.stacks| && v in s0.stacks[t] ensures FitsDeep(s0.heap, v) {
      SlotIn(s0, v);
      SlotDeep(s0, v);
    }
  }

  lemma StartOnlyLive(s0: State)
    requires Inv(s0) && s0.phase == Idle
    ensures OnlyLive(s0, s0.marks, s0.gc + 1)
  {
    assert forall x :: Color(s0.marks, x) <= s0.gc;
  }

  /** After the root loops the tri-colour invariant holds, and only live nodes are coloured. */
  lemma StartMarking(s0: State, s: State)
    requires Inv(s0) && s0.phase == Idle && SameObjects(s0, s) && s.gc == s0.gc + 1 && s.phase == Marking(NoCursor)
    requires s.marks == ShadeStacks(s0.heap, s0.marks, s0.gc + 1, s0.stacks)
    ensures Inv(s) && Tracks(s0, s)
  {
    StartOnlyLive(s0);
    hide Grounded, TriColor, Settled, FreeList.Sound, OnlyLive, ShadeStacks, Reach;
    BeginMarkKeeps(s0);
    assert s == Next(s0, BeginMark);
    ShadeStacksOnlyLive(s0, s0.marks, s0.gc + 1, s0.stacks);
  }

  lemma {:induction false} ShadeAllOnlyLive(s0: State, m: Marks, gc: int, vs: seq<Value>)
    requires OnlyLive(s0, m, gc) && forall v :: v in vs ==> InSlot(s0, v) && FitsDeep(s0.heap, v)
    ensures OnlyLive(s0, ShadeAll(s0.heap, m, gc, vs), gc)
    decreases |vs|
  {
    if vs != [] {
      if Target(vs[0]).Some? { RootReachable(s0.heap, Slots(s0), Target(vs[0]).value); }
      ShadeOnlyLive(s0, m, gc, vs[0]);
      ShadeAllOnlyLive(s0, Shade(s0.heap, m, gc, vs[0]), gc, vs[1..]);
    }
  }

  lemma {:induction false} ShadeStacksOnlyLive(s0: State, m: Marks, gc: int, stacks: seq<seq<Value>>)
    requires Inv(s0) && OnlyLive(s0, m, gc) && forall t :: 0 <= t < |stacks| ==> stacks[t] in s0.stacks
    ensures OnlyLive(s0, ShadeStacks(s0.heap, m, gc, stacks), gc)
    decreases |stacks|
  {
    if stacks != [] {
      forall v | v in stacks[0] ensures InSlot(s0, v) && FitsDeep(s0.heap, v) {
        var t :| 0 <= t < |s0.stacks| && s0.stacks[t] == stacks[0];
        SlotIn(s0, v);
        SlotDeep(s0, v);
      }
      ShadeAllOnlyLive(s0, m, gc, stacks[0]);
      ShadeStacksOnlyLive(s0, ShadeAll(s0.heap, m, gc, stacks[0]), gc, stacks[1..]);
    }
  }

  /** With the mark stack empty, the colours are exactly those of an uninterrupted mark. */
  lemma EndMarking(s0: State, s: State)
    requires Inv(s0) && s0.phase == Idle && Inv(s) && Tracks(s0, s) && s.gc == s0.gc + 1
    requires s.phase == Marking(NoCursor) && s.marks.stack == []
    ensures Inv(s.(phase := Sweeping))
    ensures s.marks == MarkedColors(s0)
    ensures Blacks(s.marks.ocolor, s.gc) == LiveOrefs(s0)
  {
    MarkedIsExact(s0, s);
    MayEnd(s);
    EndMarkKeeps(s);
    hide *;
    ExactBlacks(s0, s);
  }

  lemma MayEnd(s: State)
    requires Inv(s) && s.phase == Marking(NoCursor) && s.marks.stack == []
    ensures Shapes(s) && Enabled(s, EndMark) && Next(s, EndMark) == s.(phase := Sweeping)
  {
  }

  lemma MarkedIsExact(s0: State, s: State)
    requires Inv(s0) && s0.phase == Idle && Inv(s) && Tracks(s0, s) && s.gc == s0.gc + 1
    requires s.phase == Marking(NoCursor) && s.marks.stack == []
    ensures s.marks == MarkedColors(s0)
    ensures forall x :: Live(s0, x) <==> Color(s.marks, x) == s.gc
  {
    SameSlots(s0, s);
    forall x | Live(s0, x) ensures Color(s.marks, x) == s0.gc + 1 {
      hide Grounded, TriColor, Settled, FreeList.Sound, OnlyLive, Reach;
      LiveReached(s, x);
      EmptyStackAllBlack(s, x);
    }
    hide Grounded, TriColor, Settled, FreeList.Sound, Reach;
    MarkedExactly(s0, s.marks);
  }

  lemma ExactBlacks(s0: State, s: State)
    requires Inv(s0) && Inv(s) && SameObjects(s0, s)
    requires forall x :: Live(s0, x) <==> Color(s.marks, x) == s.gc
    ensures Blacks(s.marks.ocolor, s.gc) == LiveOrefs(s0)
  {
    hide Grounded, TriColor, Settled, FreeList.Sound, Live;
    forall o: nat | o < |s.marks.ocolor| ensures s.marks.ocolor[o] == s.gc <==> Live(s0, O(o)) {
      assert Color(s.marks, O(o)) == s.marks.ocolor[o];
    }
  }

  /** One whole release, as the machine sees it: claim, link, tail, count. */
  ghost function FreedOref(s: State, n: nat): State
    requires n < |s.heap.buffers| && 0 <= s.olist.last < |s.olist.link|
  {
    s.(heap := s.heap.(buffers := s.heap.buffers[n := NoBuffer]),
       olist := s.olist.(link := s.olist.link[s.olist.last := n], last := n, free := s.olist.free + 1))
  }

  ghost function FreedVref(s: State, n: nat): State
    requires n < |s.heap.vvalues| && 0 <= s.vlist.last < |s.vlist.link|
  {
    s.(heap := s.heap.(vvalues := s.heap.vvalues[n := Nil]),
       vlist := s.vlist.(link := s.vlist.link[s.vlist.last := n], last := n, free := s.vlist.free + 1))
  }

  lemma LastInRange(l: FreeList.List)
    requires FreeList.Sound(l)
    ensures 0 <= l.last < |l.link| && 0 <= l.next < |l.link|
  {
  }

  lemma ListsSound(s: State)
    requires Inv(s)
    ensures Shapes(s) && FreeList.Sound(s.olist) && FreeList.Sound(s.vlist)
  {
  }

  lemma ClaimOref(s: State, n: nat)
    requires Inv(s) && s.phase == Sweeping && FreeList.Enabled(s.olist, FreeList.Claim(n))
    requires n < |s.heap.buffers| && Color(s.marks, O(n)) < s.gc
    ensures Inv(s.(heap := s.heap.(buffers := s.heap.buffers[n := NoBuffer]), olist := FreeList.Apply(s.olist, FreeList.Claim(n))))
  {
    CollectionKeeps(s, FreeOref(n));
  }

  lemma ClaimVref(s: State, n: nat)
    requires Inv(s) && s.phase == Sweeping && FreeList.Enabled(s.vlist, FreeList.Claim(n))
    requires n < |s.heap.vvalues| && Color(s.marks, V(n)) < s.gc
    ensures Inv(s.(heap := s.heap.(vvalues := s.heap.vvalues[n := Nil]), vlist := FreeList.Apply(s.vlist, FreeList.Claim(n))))
  {
    CollectionKeeps(s, FreeVref(n));
  }

  lemma OrefListMoves(s: State, m: FreeList.Move)
    requires Inv(s) && (Taking(m) || (Giving(m) && s.phase == Sweeping)) && FreeList.Enabled(s.olist, m)
    ensures Inv(s.(olist := FreeList.Apply(s.olist, m)))
  {
    OnlyListsKeeps(s, s.(olist := FreeList.Apply(s.olist, m)), Some(m), None);
  }

  lemma VrefListMoves(s: State, m: FreeList.Move)
    requires Inv(s) && (Taking(m) || (Giving(m) && s.phase == Sweeping)) && FreeList.Enabled(s.vlist, m)
    ensures Inv(s.(vlist := FreeList.Apply(s.vlist, m)))
  {
    OnlyListsKeeps(s, s.(vlist := FreeList.Apply(s.vlist, m)), None, Some(m));
  }

  lemma ReleaseOref(s: State, n: nat)
    requires Inv(s) && s.phase == Sweeping && s.olist.release == FreeList.Resting
    requires FreeList.Allocated(s.olist, n) && Color(s.marks, O(n)) < s.gc
    ensures n < |s.heap.buffers| && 0 <= s.olist.last < |s.olist.link|
    ensures Inv(FreedOref(s, n))
    ensures forall m: nat :: FreeList.Allocated(FreedOref(s, n).olist, m) <==> FreeList.Allocated(s.olist, m) && m != n
  {
    ListsSound(s);
    var l1, l2, l3, l4 := FreeList.GiveOne(s.olist, n);
    hide Inv, FreeList.Apply, FreeList.Enabled, FreeList.Sound;
    var s1 := s.(heap := s.heap.(buffers := s.heap.buffers[n := NoBuffer]), olist := l1);
    ClaimOref(s, n);
    OrefListMoves(s1, FreeList.Append);
    OrefListMoves(s1.(olist := l2), FreeList.Advance);
    OrefListMoves(s1.(olist := l3), FreeList.CountUp);
    assert FreedOref(s, n) == s1.(olist := l4);
  }

  lemma ReleaseVref(s: State, n: nat)
    requires Inv(s) && s.phase == Sweeping && s.vlist.release == FreeList.Resting
    requires FreeList.Allocated(s.vlist, n) && Color(s.marks, V(n)) < s.gc
    ensures n < |s.heap.vvalues| && 0 <= s.vlist.last < |s.vlist.link|
    ensures Inv(FreedVref(s, n))
    ensures forall m: nat :: FreeList.Allocated(FreedVref(s, n).vlist, m) <==> FreeList.Allocated(s.vlist, m) && m != n
  {
    ListsSound(s);
    var l1, l2, l3, l4 := FreeList.GiveOne(s.vlist, n);
    hide Inv, FreeList.Apply, FreeList.Enabled, FreeList.Sound;
    var s1 := s.(heap := s.heap.(vvalues := s.heap.vvalues[n := Nil]), vlist := l1);
    ClaimVref(s, n);
    VrefListMoves(s1, FreeList.Append);
    VrefListMoves(s1.(vlist := l2), FreeList.Advance);
    VrefListMoves(s1.(vlist := l3), FreeList.CountUp);
    assert FreedVref(s, n) == s1.(vlist := l4);
  }

  lemma InitialIs(n: nat, k: nat, b: seq<Buffer>, oc: seq<int>, ol: seq<int>, vv: seq<Value>, vc: seq<int>, vl: seq<int>)
    requires n > 0 && k > 0 && |b| == |oc| == |ol| == n && |vv| == |vc| == |vl| == k
    requires forall i :: 0 <= i < n ==> b[i] == NoBuffer && oc[i] == 0 && ol[i] == i + 1
    requires forall i :: 0 <= i < k ==> vv[i] == Nil && vc[i] == 0 && vl[i] == i + 1
    ensures State(Heap(b, vv), Collector.Marks(oc, vc, []), 0,
                  FreeList.List(ol, 0, n - 1, n - 1, FreeList.Resting, false, 0),
                  FreeList.List(vl, 0, k - 1, k - 1, FreeList.Resting, false, 0), [[]], Idle) == Initial(n, k)
  {
  }

  lemma FreeCounts(s: State)
    requires Inv(s) && FreeList.AtRest(s.olist) && FreeList.AtRest(s.vlist)
    ensures s.olist.free >= 0 && s.vlist.free >= 0
  {
    FreeList.HeadReachesTail(s.olist);
    FreeList.HeadReachesTail(s.vlist);
  }

  /** Of the cells in front of n only those that are not white are still allocated. */
  ghost predicate Swept(l0: FreeList.List, l: FreeList.List, color: seq<int>, gc: int, n: nat) {
    forall m: nat :: FreeList.Allocated(l, m) <==> FreeList.Allocated(l0, m) && (m < n && m < |color| ==> color[m] >= gc)
  }

  /** And the buffers of the others are gone. */
  ghost predicate Emptied(b0: seq<Buffer>, b: seq<Buffer>, l0: FreeList.List, color: seq<int>, gc: int, n: nat) {
    && |b| == |b0| <= |color|
    && forall m: nat :: m < |b| ==> b[m] == if m < n && FreeList.Allocated(l0, m) && color[m] < gc then NoBuffer else b0[m]
  }

  lemma NothingSwept(ol: FreeList.List, vl: FreeList.List, b: seq<Buffer>, oc: seq<int>, vc: seq<int>, gc: int)
    ensures Swept(ol, ol, oc, gc, 0) && Swept(vl, vl, vc, gc, 0) && (|b| <= |oc| ==> Emptied(b, b, ol, oc, gc, 0))
  {
  }

  lemma SweptMore(l0: FreeList.List, l: FreeList.List, l': FreeList.List, color: seq<int>, gc: int, n: nat)
    requires Swept(l0, l, color, gc, n)
    requires forall m: nat :: FreeList.Allocated(l', m) <==> FreeList.Allocated(l, m) && (m == n && n < |color| ==> color[n] >= gc)
    ensures Swept(l0, l', color, gc, n + 1)
  {
    hide FreeList.Allocated;
  }

  lemma EmptiedMore(b0: seq<Buffer>, b: seq<Buffer>, b': seq<Buffer>, l0: FreeList.List, l: FreeList.List, color: seq<int>,
                    gc: int, n: nat)
    requires Emptied(b0, b, l0, color, gc, n) && Swept(l0, l, color, gc, n) && n < |b| == |b'|
    requires forall m: nat :: m < |b| && m != n ==> b'[m] == b[m]
    requires b'[n] == if FreeList.Allocated(l, n) && color[n] < gc then NoBuffer else b[n]
    ensures Emptied(b0, b', l0, color, gc, n + 1)
  {
    hide FreeList.Allocated;
  }

  lemma AllSwept(l0: FreeList.List, l: FreeList.List, color: seq<int>, gc: int, n: nat)
    requires Swept(l0, l, color, gc, n) && |l0.link| == |color| <= n
    ensures forall m: nat :: FreeList.Allocated(l, m) <==> FreeList.Allocated(l0, m) && m < |color| && color[m] >= gc
  {
  }

  lemma AllEmptied(b0: seq<Buffer>, b: seq<Buffer>, l0: FreeList.List, color: seq<int>, gc: int, n: nat)
    requires Emptied(b0, b, l0, color, gc, n) && n == |b|
    ensures forall m: nat :: m < |b| ==> b[m] == if FreeList.Allocated(l0, m) && color[m] < gc then NoBuffer else b0[m]
  {
  }

  lemma FinishSweep(s: State)
    requires Inv(s) && s.phase == Sweeping && s.olist.release == FreeList.Resting && s.vlist.release == FreeList.Resting
    ensures Inv(s.(phase := Idle))
  {
    EndSweepKeeps(s);
  }

  lemma LiveAllocated(s: State)
    requires Inv(s) && s.phase == Idle
    ensures forall o: nat :: Live(s, O(o)) ==> FreeList.Allocated(s.olist, o) && o < |s.heap.buffers|
    ensures forall r: nat :: Live(s, V(r)) ==> FreeList.Allocated(s.vlist, r) && r < |s.heap.vvalues|
    ensures forall o: nat :: o < |s.marks.ocolor| && s.marks.ocolor[o] > s.gc ==> false
    ensures forall r: nat :: r < |s.marks.vcolor| && s.marks.vcolor[r] > s.gc ==> false
    ensures |s.marks.ocolor| == |s.heap.buffers| == |s.olist.link|
    ensures |s.marks.vcolor| == |s.heap.vvalues| == |s.vlist.link|
  {
    forall x | Live(s, x) ensures NodeAllocated(s, x) { LiveReached(s, x); }
    forall o: nat | Live(s, O(o)) ensures FreeList.Allocated(s.olist, o) { assert NodeAllocated(s, O(o)); }
    forall r: nat | Live(s, V(r)) ensures FreeList.Allocated(s.vlist, r) { assert NodeAllocated(s, V(r)); }
    forall o: nat | o < |s.marks.ocolor| ensures s.marks.ocolor[o] <= s.gc { assert Color(s.marks, O(o)) <= s.gc; }
    forall r: nat | r < |s.marks.vcolor| ensures s.marks.vcolor[r] <= s.gc { assert Color(s.marks, V(r)) <= s.gc; }
  }

  /** The state after a whole allocation. */
  ghost function TookOref(s: State, t: nat, v: Value, b: Buffer): State
    requires t < |s.stacks| && 0 <= s.olist.next < |s.olist.link| && Shapes(s)
  {
    var n := s.olist.next;
    s.(marks := s.marks.(ocolor := s.marks.ocolor[n := s.gc]),
       heap := s.heap.(buffers := s.heap.buffers[n := b]),
       olist := s.olist.(next := s.olist.link[n], link := s.olist.link[n := -1], free := s.olist.free - 1),
       stacks := PushOn(s.stacks, t, v))
  }

  ghost function TookVref(s: State, t: nat): State
    requires t < |s.stacks| && |s.stacks[t]| > 0 && 0 <= s.vlist.next < |s.vlist.link| && Shapes(s)
  {
    var n, top := s.vlist.next, |s.stacks[t]| - 1;
    s.(marks := s.marks.(vcolor := s.marks.vcolor[n := s.gc]),
       heap := s.heap.(vvalues := s.heap.vvalues[n := s.stacks[t][top]]),
       vlist := s.vlist.(next := s.vlist.link[n], link := s.vlist.link[n := -1], free := s.vlist.free - 1),
       stacks := s.stacks[t := s.stacks[t][top := Ref(n)]])
  }

  lemma FromStackSame(s: State, s1: State, b: Buffer)
    requires FromStack(s, b) && s1.stacks == s.stacks
    ensures FromStack(s1, b)
  {
    forall v ensures InSlot(s1, v) == InSlot(s, v) {}
  }

  lemma AllocateOref(s: State, t: nat, v: Value, b: Buffer)
    requires Inv(s) && 0 < t < |s.stacks| && s.olist.next != s.olist.last && !s.olist.passed && s.olist.next >= 0
    requires if b == Chars then v == Text(Some(s.olist.next))
             else v.Container? && v.oref == Some(s.olist.next) && FromStack(s, b)
    ensures Shapes(s) && 0 <= s.olist.next < |s.olist.link|
    ensures Inv(TookOref(s, t, v, b))
    ensures !FreeList.Allocated(s.olist, s.olist.next) && !Live(s, O(s.olist.next))
    ensures forall m: nat :: FreeList.Allocated(TookOref(s, t, v, b).olist, m) <==>
      FreeList.Allocated(s.olist, m) || m == s.olist.next
  {
    ListsSound(s);
    var l1, l2, l3 := FreeList.TakeOne(s.olist);
    NotLive(s, O(s.olist.next));
    hide Inv;
    OrefListMoves(s, FreeList.Check);
    var s1 := s.(olist := l1);
    if b != Chars { FromStackSame(s, s1, b); }
    hide FromStack, FreeList.Sound;
    var s2 := TakeOref(s1, t, v, b);
    TakeKeeps(s1, s2, t, v, b);
    OrefListMoves(s2, FreeList.CountDown);
    assert TookOref(s, t, v, b) == s2.(olist := l3);
  }

  lemma NotLive(s: State, x: Node)
    requires Inv(s) && !NodeAllocated(s, x)
    ensures !Live(s, x)
  {
    if Live(s, x) { LiveReached(s, x); }
  }

  lemma AllocateVref(s: State, t: nat)
    requires Inv(s) && 0 < t < |s.stacks| && s.vlist.next != s.vlist.last && !s.vlist.passed && s.vlist.next >= 0
    requires |s.stacks[t]| > 0 && !s.stacks[t][|s.stacks[t]| - 1].Ref?
    ensures Shapes(s) && 0 <= s.vlist.next < |s.vlist.link|
    ensures Inv(TookVref(s, t))
    ensures !FreeList.Allocated(s.vlist, s.vlist.next) && !Live(s, V(s.vlist.next))
    ensures forall m: nat :: FreeList.Allocated(TookVref(s, t).vlist, m) <==>
      FreeList.Allocated(s.vlist, m) || m == s.vlist.next
  {
    hide Inv, Live, FreeList.Sound, MarkShape;
    ListsSound(s);
    var l1, l2, l3 := FreeList.TakeOne(s.vlist);
    NotLive(s, V(s.vlist.next));
    VrefListMoves(s, FreeList.Check);
    var s1 := s.(vlist := l1);
    NewVrefKeeps(s1, t);
    var s2 := Next(s1, NewVref(t));
    VrefListMoves(s2, FreeList.CountDown);
    assert TookVref(s, t) == s2.(vlist := l3);
  }

  lemma NextInRange(s: State)
    requires Inv(s)
    ensures 0 <= s.olist.next < |s.heap.buffers| == |s.marks.ocolor| == |s.olist.link|
    ensures 0 <= s.vlist.next < |s.heap.vvalues| == |s.marks.vcolor| == |s.vlist.link|
  {
    LastInRange(s.olist);
    LastInRange(s.vlist);
  }

  lemma CollectedCount(s0: State, s: State)
    requires Inv(s) && FreeList.AtRest(s.olist) && |s0.heap.buffers| == |s.olist.link|
    requires forall o: nat :: FreeList.Allocated(s.olist, o) <==> Live(s0, O(o))
    ensures |LiveOrefs(s0)| + s.olist.free + 1 == |s.olist.link|
  {
    ListsSound(s);
    FreeList.Conservation(s.olist);
    assert FreeList.AllocatedCells(s.olist) == LiveOrefs(s0);
  }
}
