/** Concrete runs of the collector machine from the tables that vartab_ini leaves. */
module Scenarios {
  import opened Basics
  import opened Objects
  import opened Collector
  import opened Safety
  import FreeList

  /** A run can be continued by any action that its last state allows. */
  lemma {:induction false} RunsOn(s: State, acts: seq<Action>, a: Action)
    requires Inv(s) && Runs(s, acts) && Enabled(After(s, acts), a)
    ensures Runs(s, acts + [a]) && After(s, acts + [a]) == Next(After(s, acts), a)
    decreases |acts|
  {
    hide Grounded, TriColor, Settled, FreeList.Sound, Enabled, Next;
    var more := acts + [a];
    if acts == [] {
      ActionKeeps(s, a);
      assert more == [a] && more[1..] == [];
      assert Runs(Next(s, a), []);
    } else {
      ActionKeeps(s, acts[0]);
      RunsOn(Next(s, acts[0]), acts[1..], a);
      assert more[0] == acts[0] && more[1..] == acts[1..] + [a];
    }
  }

  /** The machine gets from the initial tables to s. */
  ghost predicate Arrives(orefs: nat, vrefs: nat, acts: seq<Action>, s: State)
    requires orefs > 0 && vrefs > 0
  {
    Inv(Initial(orefs, vrefs)) && Runs(Initial(orefs, vrefs), acts) && After(Initial(orefs, vrefs), acts) == s
  }

  lemma Start(orefs: nat, vrefs: nat)
    requires orefs > 0 && vrefs > 0
    ensures Arrives(orefs, vrefs, [], Initial(orefs, vrefs))
  {
    InitialInv(orefs, vrefs);
  }

  /** a takes s to s'. */
  ghost predicate Goes(s: State, a: Action, s': State) {
    Shapes(s) && Enabled(s, a) && Next(s, a) == s'
  }

  lemma Step(orefs: nat, vrefs: nat, acts: seq<Action>, s: State, a: Action, s': State)
    requires orefs > 0 && vrefs > 0 && Arrives(orefs, vrefs, acts, s) && Goes(s, a, s')
    ensures Arrives(orefs, vrefs, acts + [a], s')
  {
    hide Enabled, Next, Inv;
    RunsOn(Initial(orefs, vrefs), acts, a);
  }

  const A0 := Container(Array, Some(0))
  const A1 := Container(Array, Some(1))

  /** Three orefs and one vref, between two collections. */
  function Scene(buffers: seq<Buffer>, olist: FreeList.List, stacks: seq<seq<Value>>): State {
    State(Heap(buffers, [Nil]), Marks([0, 0, 0], [0], []), 0,
          olist, FreeList.List([1], 0, 0, 0, FreeList.Resting, false, 0), stacks, Idle)
  }

  const EMPTY: seq<Buffer> := [NoBuffer, NoBuffer, NoBuffer]

  /** Array 0 with one element. */
  function One(v: Value): seq<Buffer> { [Cells([v, End(1)]), NoBuffer, NoBuffer] }

  /** The list of unused orefs with `taken` of them gone. */
  function Free(taken: nat, passed: bool, owed: nat): FreeList.List {
    FreeList.List(if taken == 0 then [1, 2, 3] else if taken == 1 then [-1, 2, 3] else [-1, -1, 3],
                  taken, 2, 2 - taken + owed, FreeList.Resting, passed, owed)
  }

  lemma OneLive(v: Value)
    requires !v.End?
    ensures LiveCount([v, End(1)]) == 1 && Scanned(One(v)[0]) == [v]
  {
    LiveCountIs([v, End(1)], 1);
  }

  // ----- the steps -----

  lemma GoThread(b: seq<Buffer>, l: FreeList.List)
    requires |b| == 3 == |l.link|
    ensures Goes(Scene(b, l, [[]]), NewThread, Scene(b, l, [[], []]))
  {
  }

  lemma GoCheck(b: seq<Buffer>, taken: nat, stacks: seq<seq<Value>>)
    requires |b| == 3 && taken < 2
    ensures Goes(Scene(b, Free(taken, false, 0), stacks), OTake(FreeList.Check), Scene(b, Free(taken, true, 0), stacks))
  {
  }

  lemma GoCount(b: seq<Buffer>, taken: nat, stacks: seq<seq<Value>>)
    requires |b| == 3 && taken <= 2
    ensures Goes(Scene(b, Free(taken, false, 1), stacks), OTake(FreeList.CountDown), Scene(b, Free(taken, false, 0), stacks))
  {
  }

  lemma GoFirst()
    ensures Goes(Scene(EMPTY, Free(0, true, 0), [[], []]), NewContainer(1, Array, One(Nil)[0]),
                 Scene(One(Nil), Free(1, false, 1), [[], [A0]]))
  {
    OneLive(Nil);
    assert Free(0, true, 0).link[0 := -1] == Free(1, false, 1).link;
    assert EMPTY[0 := One(Nil)[0]] == One(Nil);
    assert [] + [A0] == [A0] && [[], []][1 := [A0]] == [[], [A0]];
    assert [0, 0, 0][0 := 0] == [0, 0, 0];
  }

  lemma GoSecond()
    ensures Goes(Scene(One(Nil), Free(1, true, 0), [[], [A0]]), NewContainer(1, Array, NoBuffer),
                 Scene(One(Nil), Free(2, false, 1), [[], [A0, A1]]))
  {
    assert Free(1, true, 0).link[1 := -1] == Free(2, false, 1).link;
    assert One(Nil)[1 := NoBuffer] == One(Nil);
    assert [A0] + [A1] == [A0, A1] && [[], [A0]][1 := [A0, A1]] == [[], [A0, A1]];
    assert [0, 0, 0][1 := 0] == [0, 0, 0];
  }

  lemma InPlace(s: State, t: nat, i: nat)
    requires t < |s.stacks| && i < |s.stacks[t]|
    ensures InSlot(s, s.stacks[t][i])
    ensures Target(s.stacks[t][i]).Some? ==> Live(s, Target(s.stacks[t][i]).value)
  {
    assert InSlot(s, s.stacks[t][i]);
    if Target(s.stacks[t][i]).Some? { RootReachable(s.heap, Slots(s), Target(s.stacks[t][i]).value); }
  }

  lemma GoStatic()
    ensures Goes(Scene(One(Nil), Free(1, false, 0), [[], [A0]]), Push(0, A0), Scene(One(Nil), Free(1, false, 0), [[A0], [A0]]))
  {
    InPlace(Scene(One(Nil), Free(1, false, 0), [[], [A0]]), 1, 0);
    assert [] + [A0] == [A0] && [[], [A0]][0 := [A0]] == [[A0], [A0]];
  }

  lemma MayStore()
    ensures Enabled(Scene(One(Nil), Free(2, false, 0), [[], [A0, A1]]), Assign(Cell(0, 0), A1))
  {
    var s := Scene(One(Nil), Free(2, false, 0), [[], [A0, A1]]);
    InPlace(s, 1, 0);
    InPlace(s, 1, 1);
    OneLive(Nil);
    hide Live, LiveCount, InSlot, Stored;
    assert s.stacks[1][0] == A0 && s.stacks[1][1] == A1;
    assert Held(s, A1);
    assert Writable(s, Cell(0, 0), A1);
  }

  lemma GoStore()
    ensures Goes(Scene(One(Nil), Free(2, false, 0), [[], [A0, A1]]), Assign(Cell(0, 0), A1),
                 Scene(One(A1), Free(2, false, 0), [[], [A0, A1]]))
  {
    MayStore();
    hide Held, Writable;
    assert [Nil, End(1)][0 := A1] == [A1, End(1)];
    assert One(Nil)[0 := Cells([A1, End(1)])] == One(A1);
  }

  lemma GoPop()
    ensures Goes(Scene(One(A1), Free(2, false, 0), [[], [A0, A1]]), Pop(1, 1), Scene(One(A1), Free(2, false, 0), [[], [A0]]))
  {
    assert [A0, A1][..1] == [A0];
  }

  /** Interleaved marking has just shaded the roots: the one thread holds array 0, gray, whose only cell holds
      array 1, white. */
  function MarkBegun(): State {
    Scene(One(A1), Free(2, false, 0), [[], [A0]]).(marks := Marks([2, 0, 0], [0], [0]), gc := 1, phase := Marking(NoCursor))
  }

  lemma GoMark()
    ensures Goes(Scene(One(A1), Free(2, false, 0), [[], [A0]]), BeginMark, MarkBegun())
  {
    var s := Scene(One(A1), Free(2, false, 0), [[], [A0]]);
    var m := Marks([2, 0, 0], [0], [0]);
    assert ShadeAll(s.heap, s.marks, 1, []) == s.marks;
    assert ShadeStacks(s.heap, s.marks, 1, s.stacks) == ShadeStacks(s.heap, s.marks, 1, s.stacks[1..]);
    assert s.stacks[1..] == [[A0]] && [[A0]][1..] == [] && [A0][1..] == [];
    assert Shade(s.heap, s.marks, 1, A0) == m;
    assert ShadeAll(s.heap, s.marks, 1, [A0]) == ShadeAll(s.heap, m, 1, []) == m;
    assert ShadeStacks(s.heap, s.marks, 1, [[A0]]) == ShadeStacks(s.heap, m, 1, []) == m;
  }

  // ----- the runs -----

  const FIRST_ARRAY := [NewThread, OTake(FreeList.Check), NewContainer(1, Array, One(Nil)[0]), OTake(FreeList.CountDown)]
  const SECOND_ARRAY := [OTake(FreeList.Check), NewContainer(1, Array, NoBuffer), OTake(FreeList.CountDown)]
  const LINKED := [Assign(Cell(0, 0), A1), Pop(1, 1), BeginMark]

  /** The thread makes an array of one NIL. */
  lemma FirstArrayMade()
    ensures Arrives(3, 1, FIRST_ARRAY, Scene(One(Nil), Free(1, false, 0), [[], [A0]]))
  {
    hide Arrives, Goes;
    Start(3, 1);
    assert Initial(3, 1) == Scene(EMPTY, Free(0, false, 0), [[]]);
    var s0, s1 := Scene(EMPTY, Free(0, false, 0), [[], []]), Scene(EMPTY, Free(0, true, 0), [[], []]);
    var s2, s3 := Scene(One(Nil), Free(1, false, 1), [[], [A0]]), Scene(One(Nil), Free(1, false, 0), [[], [A0]]);
    var f := FIRST_ARRAY;
    GoThread(EMPTY, Free(0, false, 0));
    Step(3, 1, [], Initial(3, 1), f[0], s0);
    GoCheck(EMPTY, 0, [[], []]);
    Step(3, 1, [] + [f[0]], s0, f[1], s1);
    GoFirst();
    Step(3, 1, [] + [f[0]] + [f[1]], s1, f[2], s2);
    GoCount(One(Nil), 1, [[], [A0]]);
    Step(3, 1, [] + [f[0]] + [f[1]] + [f[2]], s2, f[3], s3);
    assert [] + [f[0]] + [f[1]] + [f[2]] + [f[3]] == f;
  }

  /** A static variable holds the array. */
  lemma StaticSlotReached()
    ensures var s := Scene(One(Nil), Free(1, false, 0), [[A0], [A0]]);
            Arrives(3, 1, FIRST_ARRAY + [Push(0, A0)], s) && Live(s, O(0))
  {
    hide Arrives, Goes;
    FirstArrayMade();
    GoStatic();
    var s := Scene(One(Nil), Free(1, false, 0), [[A0], [A0]]);
    Step(3, 1, FIRST_ARRAY, Scene(One(Nil), Free(1, false, 0), [[], [A0]]), Push(0, A0), s);
    InPlace(s, 0, 0);
  }

  lemma SecondArrayMade()
    ensures Arrives(3, 1, FIRST_ARRAY + SECOND_ARRAY, Scene(One(Nil), Free(2, false, 0), [[], [A0, A1]]))
  {
    hide Arrives, Goes;
    FirstArrayMade();
    var s0, s1 := Scene(One(Nil), Free(1, false, 0), [[], [A0]]), Scene(One(Nil), Free(1, true, 0), [[], [A0]]);
    var s2, s3 := Scene(One(Nil), Free(2, false, 1), [[], [A0, A1]]), Scene(One(Nil), Free(2, false, 0), [[], [A0, A1]]);
    var f := SECOND_ARRAY;
    GoCheck(One(Nil), 1, [[], [A0]]);
    Step(3, 1, FIRST_ARRAY, s0, f[0], s1);
    GoSecond();
    Step(3, 1, FIRST_ARRAY + [f[0]], s1, f[1], s2);
    GoCount(One(Nil), 2, [[], [A0, A1]]);
    Step(3, 1, FIRST_ARRAY + [f[0]] + [f[1]], s2, f[2], s3);
    assert FIRST_ARRAY + [f[0]] + [f[1]] + [f[2]] == FIRST_ARRAY + f;
  }

  lemma MarkBegunReached()
    ensures Arrives(3, 1, FIRST_ARRAY + SECOND_ARRAY + LINKED, MarkBegun())
  {
    hide Arrives, Goes;
    SecondArrayMade();
    var s0, s1 := Scene(One(Nil), Free(2, false, 0), [[], [A0, A1]]), Scene(One(A1), Free(2, false, 0), [[], [A0, A1]]);
    var s2, front := Scene(One(A1), Free(2, false, 0), [[], [A0]]), FIRST_ARRAY + SECOND_ARRAY;
    var f := LINKED;
    GoStore();
    Step(3, 1, front, s0, f[0], s1);
    GoPop();
    Step(3, 1, front + [f[0]], s1, f[1], s2);
    GoMark();
    Step(3, 1, front + [f[0]] + [f[1]], s2, f[2], MarkBegun());
    assert front + [f[0]] + [f[1]] + [f[2]] == front + f;
  }
}
