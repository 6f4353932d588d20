/** ntod (setup/setup-flex/dfa.c): the subset construction, and what the tables it leaves mean. */
module Subset {
  import Chains
  import opened Nfa
  import opened EpsClosure
  import opened DfaStates
  import opened SymSets

  // ----- meaning of the tables -----

  /** The list of DFA state d stands for what the list l can reach on e; 0 stands for nothing. */
  ghost predicate Step(a: Nfa, dss: seq<seq<int>>, l: seq<int>, e: int, d: int)
    requires WellFormed(a) && StateList(a, l)
  {
    if Follow(a, l, e) == [] then d == 0
    else 1 <= d < |dss| && dss[d] != [] && Denotes(a, dss[d], Closure(a, SetOf(Follow(a, l, e))))
  }

  ghost predicate Row(a: Nfa, dss: seq<seq<int>>, l: seq<int>, row: seq<int>)
    requires WellFormed(a) && StateList(a, l)
  {
    |row| == a.numecs + 1 && forall e :: 1 <= e <= a.numecs ==> Step(a, dss, l, e, row[e])
  }

  /** Every DFA state has its row of transitions. */
  ghost predicate Transitions(a: Nfa, dss: seq<seq<int>>, nxt: seq<seq<int>>, done: nat)
    requires WellFormed(a)
  {
    && |nxt| == done + 1 && done < |dss|
    && forall d :: 1 <= d <= done ==> StateList(a, dss[d]) && Row(a, dss, dss[d], nxt[d])
  }

  /** The DFA state reached from d on w, 0 for the jam state. */
  function Run(nxt: seq<seq<int>>, d: int, w: seq<int>): int
    decreases |w|
  {
    if w == [] then d
    else
      var c, e := Run(nxt, d, w[..|w| - 1]), w[|w| - 1];
      if 1 <= c < |nxt| && 0 <= e < |nxt[c]| then nxt[c][e] else 0
  }

  ghost predicate Classes(a: Nfa, w: seq<int>) {
    forall i :: 0 <= i < |w| ==> 1 <= w[i] <= a.numecs
  }

  lemma NothingReached(a: Nfa)
    requires WellFormed(a)
    ensures Closure(a, {}) == {}
  {
  }

  lemma SameSetSameClosure(a: Nfa, s: set<int>, t: set<int>)
    requires WellFormed(a) && s == t
    ensures Closure(a, s) == Closure(a, t)
  {
  }

  /** DFA state d (0: jam) stands for a set of NFA states and has its least accepting number. */
  ghost predicate StandsFor(a: Nfa, dss: seq<seq<int>>, dfaacc: seq<int>, d: int, s: set<int>)
    requires WellFormed(a)
  {
    if d == 0 then s == {}
    else 1 <= d < |dss| && d < |dfaacc| && Denotes(a, dss[d], s) && LeastAccept(a, s, dfaacc[d])
  }

  /** The subset construction preserves meaning: on every string of equivalence classes, the DFA state reached
      from a start state stands for exactly the NFA states the string can reach (its list holds only such
      states, and all the important ones) and has the least accepting number among them. */
  lemma {:induction false} MeaningPreserved(a: Nfa, dss: seq<seq<int>>, dhash: seq<int>, dfaacc: seq<int>,
                                            nxt: seq<seq<int>>, start: int, d: int, w: seq<int>)
    requires WellFormed(a) && Table(a, dss, dhash, dfaacc) && Transitions(a, dss, nxt, |dss| - 1) && Classes(a, w)
    requires 1 <= d < |dss| && Denotes(a, dss[d], Closure(a, {start}))
    ensures StandsFor(a, dss, dfaacc, Run(nxt, d, w), Reached(a, start, w))
    decreases |w|
  {
    if w == [] {
      StandsAccepts(a, dss, dhash, dfaacc, d, Closure(a, {start}));
    } else {
      var front, e := w[..|w| - 1], w[|w| - 1];
      MeaningPreserved(a, dss, dhash, dfaacc, nxt, start, d, front);
      var c, s := Run(nxt, d, front), Reached(a, start, front);
      var s1 := Closure(a, Move(a, s, e));
      if c == 0 {
        assert Move(a, s, e) == {};
        NothingReached(a);
      } else {
        FollowMoves(a, dss[c], s, e);
        SameSetSameClosure(a, SetOf(Follow(a, dss[c], e)), Move(a, s, e));
        assert Step(a, dss, dss[c], e, nxt[c][e]);
        if Follow(a, dss[c], e) == [] {
          assert SetOf(Follow(a, dss[c], e)) == {};
          NothingReached(a);
        } else {
          StandsAccepts(a, dss, dhash, dfaacc, nxt[c][e], s1);
        }
      }
    }
  }

  lemma StandsAccepts(a: Nfa, dss: seq<seq<int>>, dhash: seq<int>, dfaacc: seq<int>, d: int, s: set<int>)
    requires WellFormed(a) && Table(a, dss, dhash, dfaacc) && 1 <= d < |dss| && Denotes(a, dss[d], s)
    ensures LeastAccept(a, s, dfaacc[d])
  {
    assert Entry(a, dss[d], dhash[d], dfaacc[d]);
    DenotesAccept(a, dss[d], s, dfaacc[d]);
  }

  // ----- bounded lists, for termination -----

  /** What mkstate and link_machines build: a state entered by two symbol transitions is an epsilon state. */
  ghost predicate Merging(a: Nfa)
    requires WellFormed(a)
  {
    forall x, y :: IsState(a, x) && IsState(a, y) && x != y && !Epsilon(a, x) && !Epsilon(a, y) ==>
      a.trans1[x] == a.trans1[y] ==> Epsilon(a, a.trans1[x])
  }

  /** No state with a symbol transition is listed twice. */
  ghost predicate Lean(a: Nfa, l: seq<int>)
    requires WellFormed(a)
  {
    StateList(a, l) && forall x :: IsState(a, x) && !Epsilon(a, x) ==> multiset(l)[x] <= 1
  }

  /** In a lean list the last state, if it has a symbol transition, is not listed before. */
  lemma LastOnce(a: Nfa, front: seq<int>, x: int)
    requires WellFormed(a) && Lean(a, front + [x])
    ensures IsState(a, x) && (Epsilon(a, x) || x !in front)
    ensures Lean(a, front)
  {
    var l := front + [x];
    assert l[|front|] == x;
    assert multiset(l) == multiset(front) + multiset{x};
    assert multiset(l)[x] == multiset(front)[x] + 1;
    assert x in front <==> x in multiset(front);
    forall i | 0 <= i < |front| ensures IsState(a, front[i]) { assert l[i] == front[i]; }
    assert forall y :: multiset(front)[y] <= multiset(l)[y];
  }

  lemma {:induction false} FollowLean(a: Nfa, l: seq<int>, e: int)
    requires WellFormed(a) && Merging(a) && Lean(a, l)
    ensures Lean(a, Follow(a, l, e))
    decreases |l|
  {
    FollowIs(a, l, e);
    if l != [] {
      var k, x, front := |l| - 1, l[|l| - 1], l[..|l| - 1];
      assert l == front + [x];
      LastOnce(a, front, x);
      FollowLean(a, front, e);
      FollowIs(a, front, e);
      var r, u := Follow(a, front, e), a.trans1[x];
      if Matches(a, x, e) {
        forall i | 0 <= i < |front| && Matches(a, front[i], e) && a.trans1[front[i]] == u ensures Epsilon(a, u) {
          assert front[i] != x;
        }
      }
      assert u !in r ==> multiset(r)[u] == 0;
    }
  }

  /** The states of a list with a symbol transition. */
  function SymbolStates(a: Nfa, l: seq<int>): (r: seq<int>)
    requires WellFormed(a) && StateList(a, l)
    ensures StateList(a, r)
    decreases |l|
  {
    if l == [] then []
    else
      var x, front := l[|l| - 1], SymbolStates(a, l[..|l| - 1]);
      if Epsilon(a, x) then front else front + [x]
  }

  lemma {:induction false} SymbolStatesNoDup(a: Nfa, l: seq<int>)
    requires WellFormed(a) && Lean(a, l)
    ensures NoDup(SymbolStates(a, l)) && forall x :: x in SymbolStates(a, l) ==> x in l
    decreases |l|
  {
    if l != [] {
      var x, front := l[|l| - 1], l[..|l| - 1];
      assert l == front + [x];
      LastOnce(a, front, x);
      SymbolStatesNoDup(a, front);
    }
  }

  lemma {:induction false} FollowShort(a: Nfa, l: seq<int>, e: int)
    requires WellFormed(a) && StateList(a, l)
    ensures |Follow(a, l, e)| <= |SymbolStates(a, l)|
    decreases |l|
  {
    if l != [] {
      FollowShort(a, l[..|l| - 1], e);
    }
  }

  lemma FollowBound(a: Nfa, l: seq<int>, e: int)
    requires WellFormed(a) && Lean(a, l)
    ensures |Follow(a, l, e)| <= |a.transchar|
  {
    SymbolStatesNoDup(a, l);
    NoDupCount(a, SymbolStates(a, l));
    FollowShort(a, l, e);
  }

  lemma {:induction false} NoDupOnce(l: seq<int>)
    requires NoDup(l)
    ensures forall x :: multiset(l)[x] <= 1
    decreases |l|
  {
    if l != [] {
      var x, front := l[|l| - 1], l[..|l| - 1];
      assert l == front + [x];
      NoDupOnce(front);
    }
  }

  /** What epsclosure adds keeps a list lean. */
  lemma CloseLean(a: Nfa, t: seq<int>, l: seq<int>)
    requires WellFormed(a) && Lean(a, t) && t <= l && StateList(a, l) && NoDup(l[|t|..]) && |t| <= |a.transchar|
    requires forall x :: x in l[|t|..] ==> x !in t
    ensures Lean(a, l) && |l| <= 2 * |a.transchar|
  {
    var added := l[|t|..];
    assert l == t + added;
    NoDupOnce(added);
    NoDupCount(a, added);
    forall x | IsState(a, x) && !Epsilon(a, x) ensures multiset(l)[x] <= 1 {
      if x in added { assert x !in t; }
    }
  }

  /** All lists of states below n with at most k elements. */
  ghost function Lists(n: nat, k: nat): (s: set<seq<int>>)
    decreases k
  {
    if k == 0 then {[]}
    else {[]} + set x, l | x in Below(n) && l in Lists(n, k - 1) :: [x] + l
  }

  lemma {:induction false} InLists(n: nat, k: nat, l: seq<int>)
    requires |l| <= k && forall i :: 0 <= i < |l| ==> 0 <= l[i] < n
    ensures l in Lists(n, k)
    decreases k
  {
    if l != [] {
      InLists(n, k - 1, l[1..]);
      assert l == [l[0]] + l[1..];
    }
  }

  ghost function Used(dss: seq<seq<int>>): (s: set<seq<int>>)
    ensures forall l :: l in s <==> exists d :: 1 <= d < |dss| && dss[d] == l
  {
    set d | 1 <= d < |dss| :: dss[d]
  }

  lemma {:induction false} UsedCount(dss: seq<seq<int>>)
    requires |dss| >= 1 && forall c, d :: 1 <= c < d < |dss| ==> dss[c] != dss[d]
    ensures |Used(dss)| == |dss| - 1
    decreases |dss|
  {
    if |dss| > 1 {
      var front := dss[..|dss| - 1];
      UsedCount(front);
      assert forall d :: 1 <= d < |front| ==> front[d] == dss[d];
      assert Used(dss) == Used(front) + {dss[|dss| - 1]};
    } else {
      assert Used(dss) == {};
    }
  }

  ghost predicate AllLean(a: Nfa, dss: seq<seq<int>>)
    requires WellFormed(a)
  {
    forall d :: 1 <= d < |dss| ==> Lean(a, dss[d]) && |dss[d]| <= 2 * |a.transchar|
  }

  /** There are only so many DFA states. */
  lemma StateBound(a: Nfa, dss: seq<seq<int>>, dhash: seq<int>, dfaacc: seq<int>)
    requires WellFormed(a) && Table(a, dss, dhash, dfaacc) && AllLean(a, dss)
    ensures |dss| - 1 <= |Lists(|a.transchar|, 2 * |a.transchar|)|
  {
    UsedCount(dss);
    var all := Lists(|a.transchar|, 2 * |a.transchar|);
    forall l | l in Used(dss) ensures l in all {
      var d :| 1 <= d < |dss| && dss[d] == l;
      InLists(|a.transchar|, 2 * |a.transchar|, l);
    }
    assert all == Used(dss) + (all - Used(dss));
  }

  // ----- ntod -----

  class Builder {
    const nfa: Nfa
    const dfa: Dfa
    const closer: Closer
    var nxt: seq<seq<int>>
    var endOfBuffer: nat

    constructor (a: Nfa)
      requires WellFormed(a)
      ensures Valid() && nfa == a && dfa.dss == [[]] && nxt == [[]] && fresh(dfa) && fresh(closer) && fresh(closer.trans1)
    {
      nfa := a;
      dfa := new Dfa(a);
      closer := new Closer(a);
      nxt, endOfBuffer := [[]], 0;
    }

    ghost predicate Valid()
      reads this, dfa, closer, closer.trans1
    {
      && (dfa as object) != closer && (dfa as object) != this && (closer as object) != this
      && (closer.trans1 as object) != this && (closer.trans1 as object) != dfa && (closer.trans1 as object) != closer
      && dfa.nfa == nfa && closer.nfa == nfa && dfa.Valid() && closer.Valid() && AllLean(nfa, dfa.dss)
    }

    /** The DFA state for what the list t reaches: epsclosure, then snstods. */
    method StateFor(t: seq<int>) returns (isNew: bool, d: nat)
      requires Valid() && Lean(nfa, t) && |t| <= |nfa.transchar|
      modifies dfa, closer, closer.trans1
      ensures Valid() && old(dfa.dss) <= dfa.dss && old(dfa.dfaacc) <= dfa.dfaacc
      ensures |dfa.dss| == |old(dfa.dss)| + if isNew then 1 else 0
      ensures 1 <= d < |dfa.dss| && Denotes(nfa, dfa.dss[d], Closure(nfa, SetOf(t)))
      ensures t != [] ==> dfa.dss[d] != []
      ensures isNew ==> d == |old(dfa.dss)|
    {
      var l, acc, hash := closer.Close(t);
      ClosedList(nfa, t, l, acc);
      isNew, d := dfa.Snstods(l, acc, hash);
      SortedDenotes(nfa, l, dfa.dss[d], Closure(nfa, SetOf(t)));
      forall c | 1 <= c < |dfa.dss| ensures Lean(nfa, dfa.dss[c]) && |dfa.dss[c]| <= 2 * |nfa.transchar| {
        if c < |old(dfa.dss)| {
          assert dfa.dss[c] == old(dfa.dss)[c];
        } else {
          assert c == d;
        }
      }
    }

    /** One turn of ntod's main loop: the transitions of one DFA state. A symbol on the same chain as an earlier
        one shares its entry. */
    method FillRow(dset: seq<int>, symlist: array<bool>, duplist: array<int>) returns (row: seq<int>)
      requires Valid() && Merging(nfa) && Lean(nfa, dset)
      requires symlist.Length > nfa.numecs && duplist.Length > nfa.numecs
      requires duplist != closer.trans1 && forall e :: 0 <= e < symlist.Length ==> !symlist[e]
      modifies dfa, closer, closer.trans1, symlist, duplist
      ensures Valid() && old(dfa.dss) <= dfa.dss && old(dfa.dfaacc) <= dfa.dfaacc
      ensures forall e :: 0 <= e < symlist.Length ==> !symlist[e]
      ensures Row(nfa, dfa.dss, dset, row)
    {
      hide Step, Separates, Noted, Lean, WellFormed, AllLean;
      LeanList(nfa, dset);
      ValidWellFormed();
      SymPartition(nfa, dset, symlist, duplist);
      ghost var sl, dl := symlist[..], duplist[..];
      NothingLeft(nfa, dset, sl);
      row := seq(nfa.numecs + 1, _ => 0);
      var sym := 1;
      while sym <= nfa.numecs
        invariant 1 <= sym <= nfa.numecs + 1 && |row| == nfa.numecs + 1
        invariant Valid() && old(dfa.dss) <= dfa.dss && old(dfa.dfaacc) <= dfa.dfaacc
        invariant forall e :: 0 <= e < symlist.Length ==> (symlist[e] <==> sl[e] && e >= sym)
        invariant forall e :: sym <= e <= nfa.numecs ==> duplist[e] == dl[e]
        invariant Filled(nfa, dfa.dss, dset, row, sym)
      {
        var v := 0;
        if symlist[sym] {
          symlist[sym] := false;
          v := Entry(dset, row, sym, duplist[sym], sl, dl);
          duplist[sym] := 0;
        } else {
          EmptyStep(nfa, dfa.dss, dset, sl, sym);
        }
        FilledMore(nfa, dfa.dss, dset, row, sym, v);
        row := row[sym := v];
        sym := sym + 1;
      }
      FilledRow(nfa, dfa.dss, dset, row);
    }

    lemma ValidWellFormed()
      requires Valid()
      ensures WellFormed(nfa)
    {
    }

    /** The entry of a symbol with transitions. */
    method Entry(dset: seq<int>, row: seq<int>, sym: int, dup: int, ghost sl: seq<bool>, ghost dl: seq<int>) returns (v: int)
      requires Valid() && Merging(nfa) && Lean(nfa, dset) && 1 <= sym <= nfa.numecs && |row| == nfa.numecs + 1
      requires Separates(nfa, dset, dl) && |dl| > nfa.numecs && Noted(nfa, dset, sl) && sl[sym] && dup == dl[sym]
      requires dup == 0 || (1 <= dup < sym && Chains.Together(dl, dup, sym))
      requires Filled(nfa, dfa.dss, dset, row, sym)
      modifies dfa, closer, closer.trans1
      ensures Valid() && old(dfa.dss) <= dfa.dss && old(dfa.dfaacc) <= dfa.dfaacc
      ensures Filled(nfa, dfa.dss, dset, row, sym) && Step(nfa, dfa.dss, dset, sym, v)
    {
      hide Step, Separates, Noted, Lean, WellFormed, AllLean, Filled;
      ghost var was := dfa.dss;
      LeanList(nfa, dset);
      if dup == 0 {
        NotedFollow(nfa, dset, sl, sym);
        v := Target(dset, sym);
        FilledGrows(nfa, was, dfa.dss, dset, row, sym);
      } else {
        SharedStep(nfa, dfa.dss, dset, dl, sym, row, sym);
        v := row[dup];
      }
    }

    /** A symbol with its own entry: symfollowset, epsclosure, snstods. */
    method Target(dset: seq<int>, sym: int) returns (newds: nat)
      requires Valid() && Merging(nfa) && Lean(nfa, dset) && Follow(nfa, dset, sym) != []
      modifies dfa, closer, closer.trans1
      ensures Valid() && old(dfa.dss) <= dfa.dss && old(dfa.dfaacc) <= dfa.dfaacc
      ensures Step(nfa, dfa.dss, dset, sym, newds)
    {
      FollowLean(nfa, dset, sym);
      FollowBound(nfa, dset, sym);
      var nset := SymFollowSet(nfa, dset, sym);
      var isNew;
      isNew, newds := StateFor(nset);
    }

    /** The start states: one DFA state for each start state of the machine, in order. */
    method StartStates(starts: seq<int>) returns (startds: seq<nat>)
      requires Valid() && dfa.dss == [[]] && |nfa.transchar| > 0 && forall i :: 0 <= i < |starts| ==> IsState(nfa, starts[i])
      modifies dfa, closer, closer.trans1
      ensures Valid() && Started(nfa, dfa.dss, starts, startds, |starts|)
      ensures forall d :: 1 <= d < |dfa.dss| ==> dfa.dss[d] != []
    {
      startds := [];
      var i := 0;
      while i < |starts|
        invariant i <= |starts| && Valid() && Started(nfa, dfa.dss, starts, startds, i)
        invariant forall d :: 1 <= d < |dfa.dss| ==> dfa.dss[d] != []
      {
        ghost var was := dfa.dss;
        SingleLean(nfa, starts[i]);
        hide Lean, Table, Denotes, Started;
        var isNew, d := StateFor([starts[i]]);
        StartedMore(nfa, was, dfa.dss, starts, startds, i, d);
        forall c | 1 <= c < |dfa.dss| ensures dfa.dss[c] != [] {
          if c < |was| { assert dfa.dss[c] == was[c]; } else { assert c == d; }
        }
        startds := startds + [d];
        i := i + 1;
      }
    }

    /** The end-of-buffer state has the empty list; that it is new cannot fail. */
    method EndOfBuffer()
      requires Valid() && forall d :: 1 <= d < |dfa.dss| ==> dfa.dss[d] != []
      modifies this`endOfBuffer, dfa
      ensures Valid() && 1 <= endOfBuffer < |dfa.dss| && dfa.dss[endOfBuffer] == []
      ensures old(dfa.dss) <= dfa.dss && |dfa.dss| == |old(dfa.dss)| + 1
    {
      EmptySum(|nfa.transchar|);
      var isNew, ds := dfa.Snstods([], [], 0);
      SameElements(dfa.dss[ds], []);
      if !isNew {
        assert false;
      }
      endOfBuffer := ds;
      forall c | 1 <= c < |dfa.dss| ensures Lean(nfa, dfa.dss[c]) && |dfa.dss[c]| <= 2 * |nfa.transchar| {
        if c < |old(dfa.dss)| { assert dfa.dss[c] == old(dfa.dss)[c]; } else { assert c == ds; }
      }
    }

    /** One turn of ntod's outer loop: DFA state ds gets its transitions. */
    method Turn(ds: nat, symlist: array<bool>, duplist: array<int>)
      requires Valid() && Merging(nfa) && 1 <= ds < |dfa.dss| && Transitions(nfa, dfa.dss, nxt, ds - 1)
      requires symlist.Length > nfa.numecs && duplist.Length > nfa.numecs
      requires duplist != closer.trans1 && forall e :: 0 <= e < symlist.Length ==> !symlist[e]
      modifies this`nxt, dfa, closer, closer.trans1, symlist, duplist
      ensures Valid() && old(dfa.dss) <= dfa.dss && Transitions(nfa, dfa.dss, nxt, ds)
      ensures forall e :: 0 <= e < symlist.Length ==> !symlist[e]
    {
      hide Transitions, Row, Lean, Table, Merging, WellFormed, StateList;
      LeanList(nfa, dfa.dss[ds]);
      ghost var was := dfa.dss;
      var row := FillRow(dfa.dss[ds], symlist, duplist);
      TransitionsMore(nfa, was, dfa.dss, nxt, ds - 1, row);
      nxt := nxt + [row];
    }

    /** ntod: from the start states on, every DFA state gets its transitions, until no new ones appear. */
    method Ntod(starts: seq<int>) returns (startds: seq<nat>)
      requires Valid() && Merging(nfa) && dfa.dss == [[]] && nxt == [[]]
      requires |nfa.transchar| > 0 && forall i :: 0 <= i < |starts| ==> IsState(nfa, starts[i])
      modifies this`nxt, this`endOfBuffer, dfa, closer, closer.trans1
      ensures Valid() && Transitions(nfa, dfa.dss, nxt, |dfa.dss| - 1)
      ensures Started(nfa, dfa.dss, starts, startds, |starts|) && |startds| == |starts|
      ensures 1 <= endOfBuffer < |dfa.dss| && dfa.dss[endOfBuffer] == []
      ensures forall i, w :: 0 <= i < |starts| && Classes(nfa, w) ==>
        StandsFor(nfa, dfa.dss, dfa.dfaacc, Run(nxt, startds[i], w), Reached(nfa, starts[i], w))
    {
      startds := StartStates(starts);
      ghost var was := dfa.dss;
      EndOfBuffer();
      StartedGrows(nfa, was, dfa.dss, starts, startds, |starts|);
      var symlist := new bool[nfa.numecs + 1](_ => false);
      var duplist := new int[nfa.numecs + 1];
      var todo := 0;
      assert Transitions(nfa, dfa.dss, nxt, 0);
      hide Started, Transitions, Lists, Lean, Table, Merging;
      StateBound(nfa, dfa.dss, dfa.dhash, dfa.dfaacc);
      while todo < |dfa.dss| - 1
        invariant Valid() && 0 <= todo <= |dfa.dss| - 1 <= |Lists(|nfa.transchar|, 2 * |nfa.transchar|)|
        invariant Transitions(nfa, dfa.dss, nxt, todo) && Started(nfa, dfa.dss, starts, startds, |starts|)
        invariant fresh(symlist) && fresh(duplist) && forall e :: 0 <= e < symlist.Length ==> !symlist[e]
        invariant 1 <= endOfBuffer < |dfa.dss| && dfa.dss[endOfBuffer] == []
        decreases |Lists(|nfa.transchar|, 2 * |nfa.transchar|)| - todo
      {
        was := dfa.dss;
        todo := todo + 1;
        Turn(todo, symlist, duplist);
        StateBound(nfa, dfa.dss, dfa.dhash, dfa.dfaacc);
        StartedGrows(nfa, was, dfa.dss, starts, startds, |starts|);
      }
      AllWords(nfa, dfa.dss, dfa.dhash, dfa.dfaacc, nxt, starts, startds);
    }
  }

  /** The finished tables mean what the NFA means, from every start condition and on every word. */
  lemma AllWords(a: Nfa, dss: seq<seq<int>>, dhash: seq<int>, dfaacc: seq<int>, nxt: seq<seq<int>>,
                 starts: seq<int>, startds: seq<nat>)
    requires WellFormed(a) && Table(a, dss, dhash, dfaacc) && Transitions(a, dss, nxt, |dss| - 1)
    requires Started(a, dss, starts, startds, |starts|)
    ensures |startds| == |starts|
    ensures forall i, w :: 0 <= i < |starts| && Classes(a, w) ==>
      StandsFor(a, dss, dfaacc, Run(nxt, startds[i], w), Reached(a, starts[i], w))
  {
    forall i, w | 0 <= i < |starts| && Classes(a, w)
      ensures StandsFor(a, dss, dfaacc, Run(nxt, startds[i], w), Reached(a, starts[i], w))
    {
      MeaningPreserved(a, dss, dhash, dfaacc, nxt, starts[i], startds[i], w);
    }
  }

  lemma ClosedList(a: Nfa, t: seq<int>, l: seq<int>, acc: seq<int>)
    requires WellFormed(a) && Lean(a, t) && |t| <= |a.transchar|
    requires t <= l && NoDup(l[|t|..]) && forall x :: x in l[|t|..] ==> x !in t
    requires forall x :: x in l <==> x in t || (x in Closure(a, SetOf(t)) && Important(a, x))
    requires forall v :: v in acc <==> v != 0 && exists x :: x in Closure(a, SetOf(t)) && a.accptnum[x] == v
    ensures StateList(a, l) && Lean(a, l) && |l| <= 2 * |a.transchar|
    ensures Denotes(a, l, Closure(a, SetOf(t))) && AcceptsOf(a, l, acc)
    ensures forall i :: 0 <= i < |acc| ==> acc[i] <= a.numRules
  {
    forall x | x in l ensures x in Closure(a, SetOf(t)) {
      if x in t { EpsStart(a, SetOf(t), x); }
    }
    forall i | 0 <= i < |l| ensures IsState(a, l[i]) { assert l[i] in l; }
    CloseLean(a, t, l);
    forall i | 0 <= i < |acc| ensures acc[i] <= a.numRules {
      assert acc[i] in acc;
    }
    forall v ensures v in acc <==> v != 0 && exists x :: x in l && a.accptnum[x] == v {
      if v in acc {
        var x :| x in Closure(a, SetOf(t)) && a.accptnum[x] == v;
        assert x in l;
      }
    }
  }

  lemma SortedDenotes(a: Nfa, l: seq<int>, k: seq<int>, s: set<int>)
    requires WellFormed(a) && multiset(k) == multiset(l)
    ensures Denotes(a, l, s) ==> Denotes(a, k, s)
    ensures Lean(a, l) ==> Lean(a, k)
    ensures |k| == |l|
  {
    SameElements(k, l);
    if StateList(a, l) {
      forall i | 0 <= i < |k| ensures IsState(a, k[i]) { assert k[i] in k; }
    }
  }

  lemma NotedFollow(a: Nfa, l: seq<int>, symlist: seq<bool>, e: int)
    requires WellFormed(a) && StateList(a, l) && Noted(a, l, symlist) && 1 <= e <= a.numecs
    ensures |symlist| > a.numecs && (symlist[e] <==> Follow(a, l, e) != [])
  {
    NoMatchNoFollow(a, l, e);
  }

  lemma EmptyStep(a: Nfa, dss: seq<seq<int>>, l: seq<int>, symlist: seq<bool>, e: int)
    requires WellFormed(a) && StateList(a, l) && Noted(a, l, symlist) && 1 <= e <= a.numecs && e < |symlist| && !symlist[e]
    ensures Step(a, dss, l, e, 0)
  {
    NotedFollow(a, l, symlist, e);
  }

  lemma NothingLeft(a: Nfa, l: seq<int>, symlist: seq<bool>)
    requires WellFormed(a) && StateList(a, l) && Noted(a, l, symlist)
    ensures forall e :: 0 <= e < |symlist| && symlist[e] ==> 1 <= e <= a.numecs
  {
  }

  lemma LeanList(a: Nfa, l: seq<int>)
    requires WellFormed(a) && Lean(a, l)
    ensures StateList(a, l)
  {
  }

  /** The entries of the symbols in front of sym are right. */
  ghost predicate Filled(a: Nfa, dss: seq<seq<int>>, l: seq<int>, row: seq<int>, sym: int)
    requires WellFormed(a) && StateList(a, l)
  {
    sym <= |row| && forall e :: 1 <= e < sym ==> Step(a, dss, l, e, row[e])
  }

  lemma FilledMore(a: Nfa, dss: seq<seq<int>>, l: seq<int>, row: seq<int>, sym: int, v: int)
    requires WellFormed(a) && StateList(a, l) && Filled(a, dss, l, row, sym) && 1 <= sym < |row| && Step(a, dss, l, sym, v)
    ensures Filled(a, dss, l, row[sym := v], sym + 1)
  {
  }

  lemma FilledRow(a: Nfa, dss: seq<seq<int>>, l: seq<int>, row: seq<int>)
    requires WellFormed(a) && StateList(a, l) && |row| == a.numecs + 1 && Filled(a, dss, l, row, a.numecs + 1)
    ensures Row(a, dss, l, row)
  {
  }

  /** The shortcut: symbols on one chain have the same targets, so the entry built for the earlier one is the
      entry that would have been built. */
  lemma SharedStep(a: Nfa, dss: seq<seq<int>>, l: seq<int>, dl: seq<int>, e: int, row: seq<int>, sym: int)
    requires WellFormed(a) && StateList(a, l) && Separates(a, l, dl) && |dl| > a.numecs && 1 <= e <= a.numecs && e <= sym
    requires 1 <= dl[e] < e && Chains.Together(dl, dl[e], e) && Filled(a, dss, l, row, sym)
    ensures Follow(a, l, e) == Follow(a, l, dl[e]) && Step(a, dss, l, e, row[dl[e]])
  {
    AlikeFollow(a, l, dl[e], e);
    assert Step(a, dss, l, dl[e], row[dl[e]]);
  }

  /** More DFA states change nothing for the entries there are. */
  lemma FilledGrows(a: Nfa, was: seq<seq<int>>, dss: seq<seq<int>>, l: seq<int>, row: seq<int>, n: int)
    requires WellFormed(a) && StateList(a, l) && was <= dss && Filled(a, was, l, row, n)
    ensures Filled(a, dss, l, row, n)
  {
    forall e | 1 <= e < n ensures Step(a, dss, l, e, row[e]) {
      assert Step(a, was, l, e, row[e]);
    }
  }

  /** The DFA states of the first i start states. */
  ghost predicate Started(a: Nfa, dss: seq<seq<int>>, starts: seq<int>, startds: seq<nat>, i: nat)
    requires WellFormed(a)
  {
    |startds| == i <= |starts| && forall k :: 0 <= k < i ==>
      1 <= startds[k] < |dss| && Denotes(a, dss[startds[k]], Closure(a, {starts[k]}))
  }

  lemma SingleLean(a: Nfa, x: int)
    requires WellFormed(a) && IsState(a, x)
    ensures Lean(a, [x]) && SetOf([x]) == {x}
  {
  }

  lemma StartedGrows(a: Nfa, was: seq<seq<int>>, dss: seq<seq<int>>, starts: seq<int>, startds: seq<nat>, i: nat)
    requires WellFormed(a) && was <= dss && Started(a, was, starts, startds, i)
    ensures Started(a, dss, starts, startds, i)
  {
    forall k | 0 <= k < i ensures 1 <= startds[k] < |dss| && Denotes(a, dss[startds[k]], Closure(a, {starts[k]})) {
      assert Denotes(a, was[startds[k]], Closure(a, {starts[k]}));
    }
  }

  lemma StartedMore(a: Nfa, was: seq<seq<int>>, dss: seq<seq<int>>, starts: seq<int>, startds: seq<nat>, i: nat, d: nat)
    requires WellFormed(a) && was <= dss && Started(a, was, starts, startds, i) && i < |starts|
    requires 1 <= d < |dss| && Denotes(a, dss[d], Closure(a, SetOf([starts[i]])))
    ensures Started(a, dss, starts, startds + [d], i + 1)
  {
    StartedGrows(a, was, dss, starts, startds, i);
    assert SetOf([starts[i]]) == {starts[i]};
  }

  lemma TransitionsMore(a: Nfa, was: seq<seq<int>>, dss: seq<seq<int>>, nxt: seq<seq<int>>, done: nat, row: seq<int>)
    requires WellFormed(a) && was <= dss && Transitions(a, was, nxt, done) && done + 1 < |was|
    requires StateList(a, was[done + 1]) && Row(a, dss, was[done + 1], row)
    ensures Transitions(a, dss, nxt + [row], done + 1)
  {
    var nxt1 := nxt + [row];
    forall d | 1 <= d <= done + 1 ensures StateList(a, dss[d]) && Row(a, dss, dss[d], nxt1[d]) {
      if d <= done {
        assert Row(a, was, was[d], nxt[d]);
        forall e | 1 <= e <= a.numecs ensures Step(a, dss, dss[d], e, nxt[d][e]) {
          assert Step(a, was, was[d], e, nxt[d][e]);
        }
      }
    }
  }

  /** No transition enters the end-of-buffer state. */
  lemma EndOfBufferUnentered(a: Nfa, dss: seq<seq<int>>, nxt: seq<seq<int>>, eob: nat, d: nat, e: nat)
    requires WellFormed(a) && |dss| >= 1 && Transitions(a, dss, nxt, |dss| - 1) && 1 <= eob < |dss| && dss[eob] == []
    requires 1 <= d < |dss| && 1 <= e <= a.numecs
    ensures nxt[d][e] != eob
  {
    assert Step(a, dss, dss[d], e, nxt[d][e]);
  }
}
