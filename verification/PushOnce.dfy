/** In one collection cycle each container is pushed on the mark stack at most once. */
module PushOnce {
  import opened Basics
  import opened Objects
  import opened Collector
  import opened Safety
  import FreeList

  /** What an action pushes on the mark stack. */
  ghost function Pushed(s: State, a: Action): seq<nat>
    requires Shapes(s) && Enabled(s, a)
  {
    var n := |Next(s, a).marks.stack|;
    if n > |s.marks.stack| then Next(s, a).marks.stack[|s.marks.stack|..] else []
  }

  /** A run inside the mark phase. */
  ghost predicate MarkRun(s: State, acts: seq<Action>)
    requires Inv(s)
    decreases |acts|
  {
    && s.phase.Marking?
    && (acts == [] || (Enabled(s, acts[0]) && acts[0] != EndMark
                       && (ActionKeeps(s, acts[0]); MarkRun(Next(s, acts[0]), acts[1..]))))
  }

  /** Everything pushed during the run, in order. */
  ghost function PushLog(s: State, acts: seq<Action>): seq<nat>
    requires Inv(s) && MarkRun(s, acts)
    decreases |acts|
  {
    if acts == [] then []
    else
      ActionKeeps(s, acts[0]);
      Pushed(s, acts[0]) + PushLog(Next(s, acts[0]), acts[1..])
  }

  /** One shading pushes at most one oref: one that was white and no longer is. */
  lemma ShadePushesWhite(h: Heap, m: Marks, gc: int, v: Value)
    requires MarkShape(h, m, gc) && FitsDeep(h, v)
    ensures var m' := Shade(h, m, gc, v);
            || m'.stack == m.stack
            || exists o: nat :: m'.stack == m.stack + [o] && Color(m, O(o)) < gc && Color(m', O(o)) >= gc
  {
    var m' := Shade(h, m, gc, v);
    var w := if v.Ref? then h.vvalues[v.vref] else v;
    if w.Container? && w.oref.Some? && m'.stack != m.stack {
      assert m'.stack == m.stack + [w.oref.value];
    }
  }

  ghost predicate PushesWhite(s: State, a: Action)
    requires Shapes(s) && Enabled(s, a)
  {
    || Pushed(s, a) == []
    || exists o: nat :: Pushed(s, a) == [o] && Color(s.marks, O(o)) < s.gc && Color(Next(s, a).marks, O(o)) >= s.gc
  }

  ghost predicate KeepsNonWhite(s: State, s': State) {
    forall x :: Color(s.marks, x) >= s.gc ==> Color(s'.marks, x) >= s.gc
  }

  lemma ShadedWrite(s: State, s': State, a: Action, v: Value)
    requires Inv(s) && s.phase.Marking? && Enabled(s, a) && s' == Next(s, a)
    requires FitsDeep(s.heap, v) && s'.marks == Shade(s.heap, s.marks, s.gc, v)
    ensures PushesWhite(s, a) && KeepsNonWhite(s, s')
  {
    assert MarkShape(s.heap, s.marks, s.gc);
    hide Inv, Enabled, Next;
    ShadePushesWhite(s.heap, s.marks, s.gc, v);
    ShadeDarkens(s.heap, s.marks, s.gc, v);
  }

  lemma WriteStep(s: State, a: Action)
    requires Inv(s) && s.phase.Marking? && Enabled(s, a) && (a.Assign? || a.Resize?)
    ensures PushesWhite(s, a) && KeepsNonWhite(s, Next(s, a))
  {
    HeldWelcome(s, a.v);
    ShadedWrite(s, Next(s, a), a, a.v);
  }

  lemma ScanStep(s: State)
    requires Inv(s) && Enabled(s, ScanCell)
    ensures PushesWhite(s, ScanCell) && KeepsNonWhite(s, Next(s, ScanCell))
  {
    var o, i := s.phase.cursor.o, s.phase.cursor.i;
    if i < |Contents(s.heap, O(o))| {
      ScanShade(s);
      ShadedWrite(s, Next(s, ScanCell), ScanCell, Contents(s.heap, O(o))[i]);
    }
  }

  lemma OtherStep(s: State, a: Action)
    requires Inv(s) && s.phase.Marking? && Enabled(s, a) && a != EndMark
    requires !a.Assign? && !a.Resize? && !a.ScanCell?
    ensures Pushed(s, a) == [] && KeepsNonWhite(s, Next(s, a))
  {
    if a.PopGray? { PopGrayShape(s); }
  }

  lemma MarkStep(s: State, a: Action)
    requires Inv(s) && s.phase.Marking? && Enabled(s, a) && a != EndMark
    ensures PushesWhite(s, a) && KeepsNonWhite(s, Next(s, a))
  {
    if a.Assign? || a.Resize? { WriteStep(s, a); }
    else if a.ScanCell? { ScanStep(s); }
    else { OtherStep(s, a); }
  }

  lemma GcStays(s: State, a: Action)
    requires Inv(s) && Enabled(s, a) && s.phase.Marking?
    ensures Next(s, a).gc == s.gc
  {
  }

  /** No oref occurs twice among the pushes of a mark phase, nor was any of them marked when it began: with
      the roots pushed by BeginMark in front, each container is pushed at most once per cycle. */
  lemma {:induction false} PushedOnce(s: State, acts: seq<Action>)
    requires Inv(s) && MarkRun(s, acts)
    ensures FreeList.Distinct(PushLog(s, acts))
    ensures forall o :: o in PushLog(s, acts) ==> Color(s.marks, O(o)) < s.gc && o !in s.marks.stack
    decreases |acts|
  {
    hide Next, Enabled, Pushed;
    if acts != [] {
      ActionKeeps(s, acts[0]);
      MarkStep(s, acts[0]);
      GcStays(s, acts[0]);
      var rest := PushLog(Next(s, acts[0]), acts[1..]);
      PushedOnce(Next(s, acts[0]), acts[1..]);
      assert forall o :: o in PushLog(s, acts) ==> o in Pushed(s, acts[0]) || o in rest;
    }
    StackNotWhite(s);
  }

  lemma StackNotWhite(s: State)
    requires Inv(s) && s.phase.Marking?
    ensures forall o :: o in s.marks.stack ==> Color(s.marks, O(o)) >= s.gc
  {
    forall o | o in s.marks.stack ensures Color(s.marks, O(o)) >= s.gc {
      assert Fits(s.heap, Container(Array, Some(o)));
    }
  }
}
