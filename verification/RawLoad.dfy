/** PUSH on a heap cell (push_blkenv, aclone) copies the value without shading it. Outside the mark phase that
    is safe. Inside it, a white value pushed in this way can be freed while a thread holds it; values that are
    not white are safe. */
module RawLoad {
  import opened Objects
  import opened Collector
  import opened Safety
  import opened Scenarios
  import FreeList

  /** A raw copy of a stored value to the stack, with nothing shaded: PUSH on a heap cell, as push_blkenv does. */
  function RawPush(s: State, t: nat, v: Value): State
    requires t < |s.stacks|
  {
    s.(stacks := PushOn(s.stacks, t, v))
  }

  /** During interleaved marking a raw push keeps the invariant exactly when the value is not white. */
  lemma RawPushIff(s: State, t: nat, v: Value)
    requires Inv(s) && s.phase.Marking? && t < |s.stacks| && !v.End? && Stored(s, v)
    ensures Inv(RawPush(s, t, v)) <==> NonWhite(s.marks, s.gc, v)
    ensures NonWhite(s.marks, s.gc, v) ==> Reach(RawPush(s, t, v)) <= Reach(s)
  {
    var s' := RawPush(s, t, v);
    HeldWelcome(s, v);
    if NonWhite(s.marks, s.gc, v) {
      forall w | InSlot(s', w) ensures InSlot(s, w) || w == v {
        PushedSlot(s, t, v, s', w);
      }
      OnlyStacksKeeps(s, s');
    } else {
      assert s'.stacks[t][|s.stacks[t]|] == v;
      assert InSlot(s', v);
    }
  }

  // ----- the machine with raw pushes -----

  datatype Step = Act(a: Action) | Raw(t: nat, v: Value)

  /** A raw push copies any stored value, in any phase. */
  ghost predicate Allowed(s: State, st: Step) {
    match st
    case Act(a) => Enabled(s, a)
    case Raw(t, v) => t < |s.stacks| && !v.End? && Stored(s, v)
  }

  ghost function Take(s: State, st: Step): State
    requires Shapes(s) && Allowed(s, st)
  {
    match st
    case Act(a) => Next(s, a)
    case Raw(t, v) => RawPush(s, t, v)
  }

  ghost predicate RawRuns(s: State, steps: seq<Step>)
    decreases |steps|
  {
    steps == [] || (Shapes(s) && Allowed(s, steps[0]) && RawRuns(Take(s, steps[0]), steps[1..]))
  }

  ghost function RawAfter(s: State, steps: seq<Step>): State
    requires RawRuns(s, steps)
    decreases |steps|
  {
    if steps == [] then s else RawAfter(Take(s, steps[0]), steps[1..])
  }

  /** While marking is on, no white value is pushed raw. */
  ghost predicate Dark(s: State, st: Step) {
    st.Raw? && s.phase.Marking? ==> NonWhite(s.marks, s.gc, st.v)
  }

  ghost predicate AllDark(s: State, steps: seq<Step>)
    requires RawRuns(s, steps)
    decreases |steps|
  {
    steps == [] || (Dark(s, steps[0]) && AllDark(Take(s, steps[0]), steps[1..]))
  }

  lemma DarkStepKeeps(s: State, st: Step)
    requires Inv(s) && Allowed(s, st) && Dark(s, st)
    ensures Inv(Take(s, st))
  {
    match st
    case Act(a) => ActionKeeps(s, a);
    case Raw(t, v) =>
      if s.phase.Marking? { RawPushIff(s, t, v); } else { PushKeeps(s, t, v); }
  }

  lemma {:induction false} DarkRunKeeps(s: State, steps: seq<Step>)
    requires Inv(s) && RawRuns(s, steps) && AllDark(s, steps)
    ensures Inv(RawAfter(s, steps))
    decreases |steps|
  {
    if steps != [] {
      DarkStepKeeps(s, steps[0]);
      hide Inv, Allowed, Take, Dark;
      DarkRunKeeps(Take(s, steps[0]), steps[1..]);
    }
  }

  /** Raw pushes of values that are not white, in any number and anywhere in a run, leave everything that the
      threads reach allocated, and the collector does not touch it. */
  lemma DarkPushesSafe(orefs: nat, vrefs: nat, steps: seq<Step>, x: Node)
    requires orefs > 0 && vrefs > 0 && RawRuns(Initial(orefs, vrefs), steps) && AllDark(Initial(orefs, vrefs), steps)
    requires Live(RawAfter(Initial(orefs, vrefs), steps), x)
    ensures var s := RawAfter(Initial(orefs, vrefs), steps);
            && Inv(s) && NodeAllocated(s, x) && ContentsFit(s.heap, x)
            && forall a :: Enabled(s, a) && Collects(a) ==> Untouched(s, Next(s, a), x)
  {
    InitialInv(orefs, vrefs);
    DarkRunKeeps(Initial(orefs, vrefs), steps);
    var s := RawAfter(Initial(orefs, vrefs), steps);
    LiveReached(s, x);
    hide Enabled, Next, RawRuns, AllDark, RawAfter, Untouched;
    forall a | Enabled(s, a) && Collects(a) ensures Untouched(s, Next(s, a), x) {
      CollectorLeavesLive(s, a, x);
    }
  }

  /** Every run of the machine is one of the extended machine, and pushes nothing raw. */
  function Lifted(acts: seq<Action>): (steps: seq<Step>)
    ensures |steps| == |acts|
  {
    if acts == [] then [] else [Act(acts[0])] + Lifted(acts[1..])
  }

  lemma {:induction false} MachineRuns(s: State, acts: seq<Action>)
    requires Inv(s) && Runs(s, acts)
    ensures RawRuns(s, Lifted(acts)) && RawAfter(s, Lifted(acts)) == After(s, acts) && AllDark(s, Lifted(acts))
    decreases |acts|
  {
    if acts != [] {
      hide Grounded, TriColor, Settled, FreeList.Sound, Enabled, Next, Reach;
      ActionKeeps(s, acts[0]);
      MachineRuns(Next(s, acts[0]), acts[1..]);
      assert Lifted(acts)[1..] == Lifted(acts[1..]);
    }
  }

  lemma {:induction false} RawRunsOn(s: State, steps: seq<Step>, st: Step)
    requires RawRuns(s, steps) && Shapes(RawAfter(s, steps)) && Allowed(RawAfter(s, steps), st)
    ensures RawRuns(s, steps + [st]) && RawAfter(s, steps + [st]) == Take(RawAfter(s, steps), st)
    decreases |steps|
  {
    hide Shapes, Allowed, Take;
    var more := steps + [st];
    if steps == [] {
      assert more == [st] && more[1..] == [];
    } else {
      RawRunsOn(Take(s, steps[0]), steps[1..], st);
      assert more[0] == steps[0] && more[1..] == steps[1..] + [st];
    }
  }

  // ----- a white value pushed raw -----

  /** From the raw push on: the thread holds arrays 0 and 1. */
  function Lost(v: Value, m: Marks, phase: Phase): State {
    MarkBegun().(heap := Heap(One(v), [Nil]), marks := m, phase := phase, stacks := [[], [A0, A1]])
  }

  const BEGUN := Marks([2, 0, 0], [0], [0])
  const POPPED := Marks([1, 0, 0], [0], [])

  /** st takes s to s' in the extended machine. */
  ghost predicate Passes(s: State, st: Step, s': State) {
    Shapes(s) && Allowed(s, st) && Take(s, st) == s'
  }

  lemma BegunStored()
    ensures Stored(MarkBegun(), A1) && !NonWhite(MarkBegun().marks, MarkBegun().gc, A1)
  {
    var s := MarkBegun();
    InPlace(s, 1, 0);
    OneLive(A1);
    assert Contents(s.heap, O(0)) == [A1];
    assert A1 in Contents(s.heap, O(0));
    hide Live, InSlot, LiveCount, Contents;
    assert Live(s, O(0));
  }

  lemma PassPush()
    ensures Passes(MarkBegun(), Raw(1, A1), Lost(A1, BEGUN, Marking(NoCursor)))
  {
    BegunStored();
    hide Stored;
    assert [A0] + [A1] == [A0, A1] && [[], [A0]][1 := [A0, A1]] == [[], [A0, A1]];
  }

  lemma MayErase()
    ensures Enabled(Lost(A1, BEGUN, Marking(NoCursor)), Assign(Cell(0, 0), Nil))
  {
    var s := Lost(A1, BEGUN, Marking(NoCursor));
    InPlace(s, 1, 0);
    OneLive(A1);
    hide Live, LiveCount, InSlot, Stored;
    assert s.stacks[1][0] == A0;
    assert Held(s, Nil) && Writable(s, Cell(0, 0), Nil);
  }

  lemma PassStore()
    ensures Passes(Lost(A1, BEGUN, Marking(NoCursor)), Act(Assign(Cell(0, 0), Nil)), Lost(Nil, BEGUN, Marking(NoCursor)))
  {
    MayErase();
    hide Held, Writable;
    assert [A1, End(1)][0 := Nil] == [Nil, End(1)];
    assert One(A1)[0 := Cells([Nil, End(1)])] == One(Nil);
  }

  lemma PassPop()
    ensures Passes(Lost(Nil, BEGUN, Marking(NoCursor)), Act(PopGray), Lost(Nil, POPPED, Marking(At(0, 0))))
  {
    assert [0][..0] == [] && [2, 0, 0][0 := 1] == [1, 0, 0];
  }

  lemma PassScan()
    ensures Passes(Lost(Nil, POPPED, Marking(At(0, 0))), Act(ScanCell), Lost(Nil, POPPED, Marking(At(0, 1))))
    ensures Passes(Lost(Nil, POPPED, Marking(At(0, 1))), Act(ScanCell), Lost(Nil, POPPED, Marking(NoCursor)))
  {
    OneLive(Nil);
    hide LiveCount;
  }

  lemma PassEnd()
    ensures Passes(Lost(Nil, POPPED, Marking(NoCursor)), Act(EndMark), Lost(Nil, POPPED, Sweeping))
  {
  }

  /** Array 1 has been freed. */
  function Freed(): State {
    var s := Lost(Nil, POPPED, Sweeping);
    s.(olist := s.olist.(release := FreeList.Claimed(1)))
  }

  lemma PassFree()
    ensures Passes(Lost(Nil, POPPED, Sweeping), Act(FreeOref(1)), Freed())
  {
    assert One(Nil)[1 := NoBuffer] == One(Nil);
  }

  lemma FreedButHeld()
    ensures InSlot(Freed(), A1) && Live(Freed(), O(1)) && !NodeAllocated(Freed(), O(1))
  {
    hide Live, InSlot;
    InPlace(Freed(), 1, 1);
  }

  /** The extended machine gets from the initial tables to s. */
  ghost predicate Reaches(steps: seq<Step>, s: State) {
    RawRuns(Initial(3, 1), steps) && RawAfter(Initial(3, 1), steps) == s
  }

  lemma Pass(steps: seq<Step>, s: State, st: Step, s': State)
    requires Reaches(steps, s) && Passes(s, st, s')
    ensures Reaches(steps + [st], s')
  {
    hide Shapes, Allowed, Take;
    RawRunsOn(Initial(3, 1), steps, st);
  }

  /** Up to the raw push: two arrays are made, the second is stored in the first only, and marking begins. */
  const BEFORE := Lifted(FIRST_ARRAY + SECOND_ARRAY + LINKED)

  /** The thread overwrites the cell, and marking and sweep go on. */
  const BEHIND := [Act(Assign(Cell(0, 0), Nil)), Act(PopGray), Act(ScanCell), Act(ScanCell), Act(EndMark), Act(FreeOref(1))]

  /** A run in which the collector frees an array that a thread holds; the only thing wrong with the run is one raw
      push of a white value. */
  lemma RawPushLoses()
    ensures Reaches(BEFORE, MarkBegun()) && !NonWhite(MarkBegun().marks, MarkBegun().gc, A1)
    ensures Reaches(BEFORE + [Raw(1, A1)] + BEHIND, Freed())
    ensures InSlot(Freed(), A1) && Live(Freed(), O(1)) && !NodeAllocated(Freed(), O(1))
  {
    BeforeReaches();
    FreedButHeld();
    BegunStored();
    PassPush();
    PassStore();
    PassPop();
    PassScan();
    PassEnd();
    PassFree();
    hide Reaches, Passes, Lost, MarkBegun, Freed, InSlot, Live, NodeAllocated, Lifted, NonWhite;
    var q, b := BEFORE + [Raw(1, A1)], BEHIND;
    Pass(BEFORE, MarkBegun(), Raw(1, A1), Lost(A1, BEGUN, Marking(NoCursor)));
    Pass(q, Lost(A1, BEGUN, Marking(NoCursor)), b[0], Lost(Nil, BEGUN, Marking(NoCursor)));
    Pass(q + [b[0]], Lost(Nil, BEGUN, Marking(NoCursor)), b[1], Lost(Nil, POPPED, Marking(At(0, 0))));
    Pass(q + [b[0]] + [b[1]], Lost(Nil, POPPED, Marking(At(0, 0))), b[2], Lost(Nil, POPPED, Marking(At(0, 1))));
    Pass(q + [b[0]] + [b[1]] + [b[2]], Lost(Nil, POPPED, Marking(At(0, 1))), b[3], Lost(Nil, POPPED, Marking(NoCursor)));
    var r := q + [b[0]] + [b[1]] + [b[2]] + [b[3]];
    Pass(r, Lost(Nil, POPPED, Marking(NoCursor)), b[4], Lost(Nil, POPPED, Sweeping));
    Pass(r + [b[4]], Lost(Nil, POPPED, Sweeping), b[5], Freed());
    assert r + [b[4]] + [b[5]] == q + b;
  }

  // ----- a white value pushed raw, and reached by the mark -----

  /** A moment of the mark phase, with array 1 still in array 0. */
  function Moment(stacks: seq<seq<Value>>, m: Marks, phase: Phase): State {
    MarkBegun().(stacks := stacks, marks := m, phase := phase)
  }

  const SHADED := Marks([1, 2, 0], [0], [1])
  const MARKED := Marks([1, 1, 0], [0], [])

  lemma MomentPop(t: seq<seq<Value>>)
    ensures Passes(Moment(t, BEGUN, Marking(NoCursor)), Act(PopGray), Moment(t, POPPED, Marking(At(0, 0))))
  {
    assert [0][..0] == [] && [2, 0, 0][0 := 1] == [1, 0, 0];
  }

  /** Scanning array 0 shades array 1, whatever is on the stacks. */
  lemma MomentShade(t: seq<seq<Value>>)
    ensures Passes(Moment(t, POPPED, Marking(At(0, 0))), Act(ScanCell), Moment(t, SHADED, Marking(At(0, 1))))
  {
    OneLive(A1);
    hide LiveCount, Scanned;
    var s := Moment(t, POPPED, Marking(At(0, 0)));
    assert Contents(s.heap, O(0)) == [A1];
    assert [1, 0, 0][1 := 2] == [1, 2, 0] && [] + [1] == [1];
    assert Shade(s.heap, POPPED, 1, A1) == SHADED;
  }

  lemma MomentsEnd(t: seq<seq<Value>>)
    ensures Passes(Moment(t, SHADED, Marking(At(0, 1))), Act(ScanCell), Moment(t, SHADED, Marking(NoCursor)))
    ensures Passes(Moment(t, SHADED, Marking(NoCursor)), Act(PopGray), Moment(t, MARKED, Marking(NoCursor)))
    ensures Passes(Moment(t, MARKED, Marking(NoCursor)), Act(EndMark), Moment(t, MARKED, Sweeping))
  {
    OneLive(A1);
    hide LiveCount;
    assert [1][..0] == [] && [1, 2, 0][1 := 1] == [1, 1, 0];
  }

  /** The same push after the shading is dark. */
  lemma MomentPush()
    ensures Passes(Moment([[], [A0]], SHADED, Marking(At(0, 1))), Raw(1, A1), Moment([[], [A0, A1]], SHADED, Marking(At(0, 1))))
    ensures Dark(Moment([[], [A0]], SHADED, Marking(At(0, 1))), Raw(1, A1))
  {
    var s := Moment([[], [A0]], SHADED, Marking(At(0, 1)));
    InPlace(s, 1, 0);
    OneLive(A1);
    assert Contents(s.heap, O(0)) == [A1];
    assert A1 in Contents(s.heap, O(0));
    hide Live, InSlot, LiveCount, Contents;
    assert Live(s, O(0));
    assert Stored(s, A1);
    hide Stored;
    assert [A0] + [A1] == [A0, A1] && [[], [A0]][1 := [A0, A1]] == [[], [A0, A1]];
  }

  lemma DarkPass(s: State, st: Step, s': State)
    requires Inv(s) && Passes(s, st, s') && Dark(s, st)
    ensures Inv(s')
  {
    DarkStepKeeps(s, st);
  }

  lemma ActDark(s: State, a: Action)
    ensures Dark(s, Act(a))
  {
  }

  /** From the shading on, the states with the early push are those with the late one, which keeps the invariant. */
  lemma MomentSound()
    ensures Inv(Moment([[], [A0, A1]], MARKED, Sweeping))
  {
    hide *;
    var t, u := [[], [A0]], [[], [A0, A1]];
    MarkBegunSound();
    MomentPop(t);
    MomentShade(t);
    MomentPush();
    MomentsEnd(u);
    ActDark(Moment(t, BEGUN, Marking(NoCursor)), PopGray);
    DarkPass(Moment(t, BEGUN, Marking(NoCursor)), Act(PopGray), Moment(t, POPPED, Marking(At(0, 0))));
    ActDark(Moment(t, POPPED, Marking(At(0, 0))), ScanCell);
    DarkPass(Moment(t, POPPED, Marking(At(0, 0))), Act(ScanCell), Moment(t, SHADED, Marking(At(0, 1))));
    DarkPass(Moment(t, SHADED, Marking(At(0, 1))), Raw(1, A1), Moment(u, SHADED, Marking(At(0, 1))));
    ActDark(Moment(u, SHADED, Marking(At(0, 1))), ScanCell);
    DarkPass(Moment(u, SHADED, Marking(At(0, 1))), Act(ScanCell), Moment(u, SHADED, Marking(NoCursor)));
    ActDark(Moment(u, SHADED, Marking(NoCursor)), PopGray);
    DarkPass(Moment(u, SHADED, Marking(NoCursor)), Act(PopGray), Moment(u, MARKED, Marking(NoCursor)));
    ActDark(Moment(u, MARKED, Marking(NoCursor)), EndMark);
    DarkPass(Moment(u, MARKED, Marking(NoCursor)), Act(EndMark), Moment(u, MARKED, Sweeping));
  }

  lemma MarkBegunSound()
    ensures Inv(Moment([[], [A0]], BEGUN, Marking(NoCursor))) && MarkBegun() == Moment([[], [A0]], BEGUN, Marking(NoCursor))
    ensures Lost(A1, BEGUN, Marking(NoCursor)) == Moment([[], [A0, A1]], BEGUN, Marking(NoCursor))
  {
    MarkBegunReached();
  }

  const ONWARD := [Act(PopGray), Act(ScanCell), Act(ScanCell), Act(PopGray), Act(EndMark)]

  lemma OnwardReaches()
    ensures Reaches(BEFORE + [Raw(1, A1)] + ONWARD, Moment([[], [A0, A1]], MARKED, Sweeping))
  {
    var t, o := [[], [A0, A1]], ONWARD;
    BeforeReaches();
    PassPush();
    MarkBegunSound();
    MomentPop(t);
    MomentShade(t);
    MomentsEnd(t);
    hide Reaches, Passes, Lost, MarkBegun, Moment, Lifted, Inv;
    var q := BEFORE + [Raw(1, A1)];
    Pass(BEFORE, MarkBegun(), Raw(1, A1), Moment(t, BEGUN, Marking(NoCursor)));
    Pass(q, Moment(t, BEGUN, Marking(NoCursor)), o[0], Moment(t, POPPED, Marking(At(0, 0))));
    Pass(q + [o[0]], Moment(t, POPPED, Marking(At(0, 0))), o[1], Moment(t, SHADED, Marking(At(0, 1))));
    Pass(q + [o[0]] + [o[1]], Moment(t, SHADED, Marking(At(0, 1))), o[2], Moment(t, SHADED, Marking(NoCursor)));
    Pass(q + [o[0]] + [o[1]] + [o[2]], Moment(t, SHADED, Marking(NoCursor)), o[3], Moment(t, MARKED, Marking(NoCursor)));
    Pass(q + [o[0]] + [o[1]] + [o[2]] + [o[3]], Moment(t, MARKED, Marking(NoCursor)), o[4], Moment(t, MARKED, Sweeping));
    assert q + [o[0]] + [o[1]] + [o[2]] + [o[3]] + [o[4]] == q + o;
  }

  /** A run with a raw push of a white value, as in RawPushLoses, that does no harm: nobody touches array 0, the mark finds
      array 1 in it, and everything is safe from there on. */
  lemma RawPushHarmless()
    ensures Reaches(BEFORE, MarkBegun()) && !NonWhite(MarkBegun().marks, MarkBegun().gc, A1)
    ensures var s := Moment([[], [A0, A1]], MARKED, Sweeping);
            && Reaches(BEFORE + [Raw(1, A1)] + ONWARD, s) && Inv(s) && Live(s, O(1)) && NodeAllocated(s, O(1))
            && forall steps :: RawRuns(s, steps) && AllDark(s, steps) ==> Inv(RawAfter(s, steps))
  {
    hide *;
    BeforeReaches();
    BegunStored();
    OnwardReaches();
    MomentSound();
    var s := Moment([[], [A0, A1]], MARKED, Sweeping);
    KeptAlive(s);
    forall steps | RawRuns(s, steps) && AllDark(s, steps) ensures Inv(RawAfter(s, steps)) { DarkRunKeeps(s, steps); }
  }

  lemma KeptAlive(s: State)
    requires s == Moment([[], [A0, A1]], MARKED, Sweeping) && Inv(s)
    ensures Live(s, O(1)) && NodeAllocated(s, O(1))
  {
    hide Live, InSlot, Inv;
    InPlace(s, 1, 1);
  }

  /** The same push as a single step: a state that the machine reaches, and in which a raw push of a stored value
      breaks the invariant. */
  lemma RawPushBreaks()
    ensures var s := MarkBegun();
            Inv(s) && Stored(s, A1) && !NonWhite(s.marks, s.gc, A1) && !Inv(RawPush(s, 1, A1))
  {
    MarkBegunReached();
    BegunStored();
    hide Inv, Stored, NonWhite;
    RawPushIff(MarkBegun(), 1, A1);
  }

  lemma BeforeReaches()
    ensures Reaches(BEFORE, MarkBegun())
  {
    MarkBegunReached();
    MachineRuns(Initial(3, 1), FIRST_ARRAY + SECOND_ARRAY + LINKED);
  }
}
