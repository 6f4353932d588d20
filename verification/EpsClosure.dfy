/** epsclosure (setup/setup-flex/dfa.c): a breadth-first search that marks the states it has seen inside
    trans1, by making the entries negative, and takes the marks off again at the end. */
module EpsClosure {
  import opened Basics
  import opened Nfa

  /** Sum of the distinct members below n: the hash of a list of states. */
  function SumIn(l: seq<int>, n: nat): int
    decreases n
  {
    if n == 0 then 0 else SumIn(l, n - 1) + (if n - 1 in l then n - 1 else 0)
  }

  lemma {:induction false} SumAppend(l: seq<int>, x: int, n: nat)
    requires x !in l
    ensures SumIn(l + [x], n) == SumIn(l, n) + (if 0 <= x < n then x else 0)
    decreases n
  {
    if n > 0 {
      SumAppend(l, x, n - 1);
    }
  }

  /** The hash depends on the members only. */
  lemma {:induction false} SumSame(l: seq<int>, k: seq<int>, n: nat)
    requires forall x :: x in l <==> x in k
    ensures SumIn(l, n) == SumIn(k, n)
    decreases n
  {
    if n > 0 {
      SumSame(l, k, n - 1);
    }
  }

  ghost predicate NoDup(l: seq<int>) {
    forall i, j :: 0 <= i < j < |l| ==> l[i] != l[j]
  }

  lemma NoDupCount(a: Nfa, l: seq<int>)
    requires NoDup(l) && StateList(a, l)
    ensures |l| <= |a.transchar|
    decreases |l|
  {
    NoDupSet(l);
    forall x | x in SetOf(l) ensures x in Below(|a.transchar|) {}
    SubsetSize(SetOf(l), Below(|a.transchar|));
  }

  lemma {:induction false} NoDupSet(l: seq<int>)
    requires NoDup(l)
    ensures |SetOf(l)| == |l|
    decreases |l|
  {
    if l != [] {
      var x, front := l[|l| - 1], l[..|l| - 1];
      NoDupSet(front);
      assert l == front + [x];
      assert SetOf(l) == SetOf(front) + {x};
    }
  }

  /** trans1 with the states on stk marked. */
  ghost predicate Marked(a: Nfa, t: seq<int>, stk: seq<int>)
    requires WellFormed(a)
  {
    && |t| == |a.transchar|
    && forall x :: IsState(a, x) ==> t[x] == if x in stk then a.trans1[x] - MARKER_DIFFERENCE else a.trans1[x]
  }

  /** The search so far: stk are the states seen, l the list being built, acc their accepting numbers. */
  ghost predicate Searching(a: Nfa, t: seq<int>, stk: seq<int>, l: seq<int>, acc: seq<int>, init: seq<int>)
    requires WellFormed(a)
  {
    && StateList(a, init) && StateList(a, stk) && NoDup(stk)
    && (forall x :: x in stk ==> EpsReach(a, SetOf(init), x))
    && init <= l && NoDup(l[|init|..])
    && (forall x :: x in l[|init|..] ==> x in stk && Important(a, x) && x !in init)
    && (forall x :: x in stk && Important(a, x) ==> x in l)
    && (forall v :: v in acc <==> v != 0 && exists x :: x in stk && a.accptnum[x] == v)
    && Marked(a, t, stk)
  }

  lemma EpsStep(a: Nfa, s: set<int>, x: int, y: int)
    requires WellFormed(a) && IsState(a, x) && EpsReach(a, s, x) && EpsEdge(a, x, y)
    ensures EpsReach(a, s, y)
  {
    var p :| EpsPath(a, s, p) && p[|p| - 1] == x;
    assert EpsPath(a, s, p + [y]);
  }

  lemma EpsStart(a: Nfa, s: set<int>, x: int)
    requires WellFormed(a) && IsState(a, x) && x in s
    ensures EpsReach(a, s, x)
  {
    assert EpsPath(a, s, [x]);
  }

  /** A list closed under epsilon transitions holds all that its members reach. */
  lemma {:induction false} EpsInside(a: Nfa, s: set<int>, l: seq<int>, p: seq<int>, i: nat)
    requires WellFormed(a) && EpsPath(a, s, p) && i < |p|
    requires forall x :: x in s ==> x in l
    requires forall x, y :: x in l && IsState(a, x) && EpsEdge(a, x, y) ==> y in l
    ensures p[i] in l
  {
    if i > 0 {
      EpsInside(a, s, l, p, i - 1);
      assert EpsEdge(a, p[i - 1], p[i]);
    }
  }

  /** What STACK_STATE and the first loop make of the list, the accepting numbers and the table. */
  function ListWith(a: Nfa, l: seq<int>, x: int, initial: bool): seq<int>
    requires WellFormed(a) && IsState(a, x)
  {
    if !initial && Important(a, x) then l + [x] else l
  }

  function AcceptWith(a: Nfa, acc: seq<int>, x: int): seq<int>
    requires WellFormed(a) && IsState(a, x)
  {
    if a.accptnum[x] != 0 then acc + [a.accptnum[x]] else acc
  }

  lemma AcceptMore(a: Nfa, stk: seq<int>, acc: seq<int>, x: int)
    requires WellFormed(a) && StateList(a, stk) && IsState(a, x)
    requires forall v :: v in acc <==> v != 0 && exists y :: y in stk && a.accptnum[y] == v
    ensures forall v :: v in AcceptWith(a, acc, x) <==> v != 0 && exists y :: y in stk + [x] && a.accptnum[y] == v
  {
    var stk1, acc1 := stk + [x], AcceptWith(a, acc, x);
    forall v ensures v in acc1 <==> v != 0 && exists y :: y in stk1 && a.accptnum[y] == v {
      if v in acc && v != 0 {
        var y :| y in stk && a.accptnum[y] == v;
        assert y in stk1;
      }
      if v == a.accptnum[x] { assert x in stk1; }
    }
  }

  lemma ListMore(a: Nfa, stk: seq<int>, l: seq<int>, init: seq<int>, x: int)
    requires WellFormed(a) && StateList(a, stk) && IsState(a, x) && x !in stk && init <= l && NoDup(l[|init|..])
    requires forall y :: y in l[|init|..] ==> y in stk && Important(a, y) && y !in init
    requires forall y :: y in stk && Important(a, y) ==> y in l
    ensures var l1 := ListWith(a, l, x, x in init);
            && init <= l1 && NoDup(l1[|init|..])
            && (forall y :: y in l1[|init|..] ==> y in stk + [x] && Important(a, y) && y !in init)
            && forall y :: y in stk + [x] && Important(a, y) ==> y in l1
  {
    var l1, tail := ListWith(a, l, x, x in init), l[|init|..];
    assert x !in tail;
    hide Important, WellFormed;
    if l1 != l {
      assert l1[|init|..] == tail + [x];
      assert forall i :: 0 <= i < |tail| ==> tail[i] in tail;
    }
  }

  lemma PushedStates(a: Nfa, stk: seq<int>, s: set<int>, x: int)
    requires WellFormed(a) && StateList(a, stk) && NoDup(stk) && IsState(a, x) && x !in stk
    requires (forall y :: y in stk ==> EpsReach(a, s, y)) && EpsReach(a, s, x)
    ensures StateList(a, stk + [x]) && NoDup(stk + [x]) && forall y :: y in stk + [x] ==> EpsReach(a, s, y)
  {
    hide EpsReach, WellFormed;
    assert forall i :: 0 <= i < |stk| ==> stk[i] in stk;
  }

  lemma SearchPush(a: Nfa, t: seq<int>, t1: seq<int>, stk: seq<int>, l: seq<int>, acc: seq<int>, init: seq<int>, x: int)
    requires WellFormed(a) && Searching(a, t, stk, l, acc, init) && IsState(a, x) && x !in stk
    requires EpsReach(a, SetOf(init), x) && Marked(a, t1, stk + [x])
    ensures Searching(a, t1, stk + [x], ListWith(a, l, x, x in init), AcceptWith(a, acc, x), init)
  {
    hide AcceptWith, ListWith, EpsReach, WellFormed, Marked, NoDup, StateList, Important;
    PushedStates(a, stk, SetOf(init), x);
    ListMore(a, stk, l, init, x);
    AcceptMore(a, stk, acc, x);
  }

  /** The hash so far counts the states that are both seen and listed. */
  ghost predicate Hashed(hash: int, h: seq<int>, stk: seq<int>, l: seq<int>, n: nat) {
    hash == SumIn(h, n) && forall x :: x in h <==> x in stk && x in l
  }

  lemma HashPush(hash: int, h: seq<int>, stk: seq<int>, l: seq<int>, n: nat, x: int, l1: seq<int>)
    requires Hashed(hash, h, stk, l, n) && 0 <= x < n && x !in stk
    requires l1 == l || l1 == l + [x]
    ensures x in l1 ==> Hashed(hash + x, h + [x], stk + [x], l1, n)
    ensures x !in l1 ==> Hashed(hash, h, stk + [x], l1, n)
  {
    assert forall y :: y in stk + [x] <==> y in stk || y == x;
    if x in l1 { SumAppend(h, x, n); }
  }

  /** The epsilon successors of the first k states seen have been seen. */
  ghost predicate Expanded(a: Nfa, stk: seq<int>, k: nat)
    requires WellFormed(a)
  {
    k <= |stk| && forall i, y :: 0 <= i < k && IsState(a, stk[i]) && EpsEdge(a, stk[i], y) ==> y in stk
  }

  class Closer {
    const nfa: Nfa
    const trans1: array<int>
    var stk: seq<int>

    constructor (a: Nfa)
      requires WellFormed(a)
      ensures nfa == a && trans1[..] == a.trans1 && fresh(trans1)
    {
      nfa := a;
      var t := new int[|a.trans1|](i requires 0 <= i < |a.trans1| => a.trans1[i]);
      trans1 := t;
      stk := [];
    }

    /** Between two calls nothing is marked. */
    ghost predicate Valid()
      reads this, trans1
    {
      WellFormed(nfa) && trans1[..] == nfa.trans1
    }

    /** State x is seen: it is put on the stack and marked, its accepting number is noted, and, unless it is an
        initial state or not important, it is added to the list. */
    method Visit(x: int, initial: bool, l: seq<int>, acc: seq<int>, hash: int, ghost init: seq<int>, ghost h: seq<int>)
      returns (l': seq<int>, acc': seq<int>, hash': int, ghost h': seq<int>)
      requires WellFormed(nfa) && trans1.Length == |nfa.transchar| && Searching(nfa, trans1[..], stk, l, acc, init)
      requires IsState(nfa, x) && x !in stk && EpsReach(nfa, SetOf(init), x) && (initial <==> x in init)
      requires Hashed(hash, h, stk, l, |nfa.transchar|)
      modifies this`stk, trans1
      ensures stk == old(stk) + [x] && Searching(nfa, trans1[..], stk, l', acc', init)
      ensures initial ==> l' == l
      ensures Hashed(hash', h', stk, l', |nfa.transchar|)
    {
      stk := stk + [x];
      trans1[x] := trans1[x] - MARKER_DIFFERENCE;
      MarkOne(nfa, old(trans1[..]), old(stk), x);
      SearchPush(nfa, old(trans1[..]), trans1[..], old(stk), l, acc, init, x);
      acc' := AcceptWith(nfa, acc, x);
      l' := ListWith(nfa, l, x, initial);
      HashPush(hash, h, old(stk), l, |nfa.transchar|, x, l');
      hash', h' := hash, h;
      if initial || Important(nfa, x) {
        hash', h' := hash + x, h + [x];
      }
      AddedOnce(nfa, old(trans1[..]), old(stk), l, acc, init, x);
    }

    /** The first loop: every initial state is seen, once. */
    method SeeInitial(t: seq<int>) returns (acc: seq<int>, hash: int, ghost h: seq<int>)
      requires Valid() && StateList(nfa, t)
      modifies this`stk, trans1
      ensures Searching(nfa, trans1[..], stk, t, acc, t) && Hashed(hash, h, stk, t, |nfa.transchar|)
      ensures (forall x :: x in t ==> x in stk) && trans1.Length == |nfa.transchar|
    {
      hide Searching, Hashed, WellFormed, StateList;
      acc, hash, h, stk := [], 0, [], [];
      SearchStarts(nfa, trans1[..], t);
      assert |trans1[..]| == trans1.Length;
      StateListAt(nfa, t);
      var nstate := 0;
      while nstate < |t|
        invariant nstate <= |t| && WellFormed(nfa) && trans1.Length == |nfa.transchar|
        invariant Searching(nfa, trans1[..], stk, t, acc, t) && Hashed(hash, h, stk, t, |nfa.transchar|)
        invariant forall i :: 0 <= i < nstate ==> t[i] in stk
      {
        acc, hash, h := SeeOne(t[nstate], t, acc, hash, h);
        nstate := nstate + 1;
      }
    }

    /** One turn of the first loop. */
    method SeeOne(ns: int, t: seq<int>, acc: seq<int>, hash: int, ghost h: seq<int>)
      returns (acc': seq<int>, hash': int, ghost h': seq<int>)
      requires WellFormed(nfa) && trans1.Length == |nfa.transchar| && ns in t && IsState(nfa, ns)
      requires Searching(nfa, trans1[..], stk, t, acc, t) && Hashed(hash, h, stk, t, |nfa.transchar|)
      modifies this`stk, trans1
      ensures Searching(nfa, trans1[..], stk, t, acc', t) && Hashed(hash', h', stk, t, |nfa.transchar|)
      ensures old(stk) <= stk && ns in stk
    {
      hide Searching, Hashed, WellFormed;
      acc', hash', h' := acc, hash, h;
      MarkedIff(nfa, trans1[..], stk, t, acc, t, ns);
      if !(trans1[ns] < 0) {
        EpsStart(nfa, SetOf(t), ns);
        var l: seq<int>;
        l, acc', hash', h' := Visit(ns, true, t, acc, hash, t, h);
      }
    }

    /** The second loop is under way: all initial states have been seen. */
    ghost predicate Going(l: seq<int>, acc: seq<int>, hash: int, init: seq<int>, h: seq<int>)
      reads this, trans1
    {
      && WellFormed(nfa) && trans1.Length == |nfa.transchar| && Searching(nfa, trans1[..], stk, l, acc, init)
      && Hashed(hash, h, stk, l, |nfa.transchar|) && (forall x :: x in init ==> x in stk)
    }

    lemma GoingState(l: seq<int>, acc: seq<int>, hash: int, init: seq<int>, h: seq<int>, i: nat)
      requires Going(l, acc, hash, init, h) && i < |stk|
      ensures WellFormed(nfa) && stk[i] in stk && IsState(nfa, stk[i])
      ensures trans1.Length == |nfa.transchar| == |nfa.trans1| == |nfa.trans2|
      ensures trans1[stk[i]] + MARKER_DIFFERENCE == nfa.trans1[stk[i]]
      ensures IsState(nfa, nfa.trans1[stk[i]]) && IsState(nfa, nfa.trans2[stk[i]])
      ensures Epsilon(nfa, stk[i]) && nfa.trans1[stk[i]] == NO_TRANSITION ==> nfa.trans2[stk[i]] == NO_TRANSITION
    {
      SeenState(nfa, trans1[..], stk, l, acc, init, i);
    }

    /** STACK_STATE for one target, if it has not been seen. */
    method SeeTarget(tsp: int, from: int, l: seq<int>, acc: seq<int>, hash: int, ghost init: seq<int>, ghost h: seq<int>)
      returns (l': seq<int>, acc': seq<int>, hash': int, ghost h': seq<int>)
      requires Going(l, acc, hash, init, h)
      requires IsState(nfa, tsp) && IsState(nfa, from) && from in stk && EpsEdge(nfa, from, tsp)
      modifies this`stk, trans1
      ensures old(stk) <= stk && tsp in stk && Going(l', acc', hash', init, h')
    {
      l', acc', hash', h' := l, acc, hash, h;
      MarkedIff(nfa, trans1[..], stk, l, acc, init, tsp);
      hide Searching, Hashed;
      if !(trans1[tsp] < 0) {
        EpsStep(nfa, SetOf(init), from, tsp);
        l', acc', hash', h' := Visit(tsp, false, l, acc, hash, init, h);
      }
    }

    /** One turn of the second loop. */
    method Expand(stkpos: nat, l: seq<int>, acc: seq<int>, hash: int, ghost init: seq<int>, ghost h: seq<int>)
      returns (l': seq<int>, acc': seq<int>, hash': int, ghost h': seq<int>)
      requires Going(l, acc, hash, init, h) && stkpos < |stk| && Expanded(nfa, stk, stkpos)
      modifies this`stk, trans1
      ensures old(stk) <= stk && Going(l', acc', hash', init, h') && Expanded(nfa, stk, stkpos + 1)
    {
      hide Going, WellFormed, Expanded;
      GoingState(l, acc, hash, init, h, stkpos);
      var ns := stk[stkpos];
      l', acc', hash', h' := l, acc, hash, h;
      if nfa.transchar[ns] == SYM_EPSILON {
        var tsp := trans1[ns] + MARKER_DIFFERENCE;
        if tsp != NO_TRANSITION {
          l', acc', hash', h' := SeeTarget(tsp, ns, l', acc', hash', init, h');
          tsp := nfa.trans2[ns];
          if tsp != NO_TRANSITION {
            l', acc', hash', h' := SeeTarget(tsp, ns, l', acc', hash', init, h');
          }
        }
      }
      ExpandedNext(nfa, old(stk), stk, stkpos);
    }

    /** The last loop: the marks are taken off; a state on the stack without a mark would be a fatal error. */
    method Unmark()
      requires WellFormed(nfa) && trans1.Length == |nfa.transchar| && Marked(nfa, trans1[..], stk)
      requires StateList(nfa, stk) && NoDup(stk)
      modifies trans1
      ensures Valid()
    {
      var stkpos := 0;
      while stkpos < |stk|
        invariant stkpos <= |stk| && Marked(nfa, trans1[..], stk[stkpos..])
      {
        var x := stk[stkpos];
        assert x in stk[stkpos..] && x !in stk[stkpos + 1..];
        assert stk[stkpos..] == [x] + stk[stkpos + 1..];
        if trans1[x] < 0 {
          trans1[x] := trans1[x] + MARKER_DIFFERENCE;
        } else {
          assert false;
        }
        stkpos := stkpos + 1;
      }
      assert trans1[..] == nfa.trans1;
    }

    /** epsclosure: the list grows by exactly the reachable important states not already in it, each once; acc
        holds the accepting numbers of all reachable states; hash is the sum of the distinct listed states; each
        reachable state was visited once; and trans1 is as it was. */
    method Close(t: seq<int>) returns (l: seq<int>, acc: seq<int>, hash: int)
      requires Valid() && StateList(nfa, t)
      modifies this`stk, trans1
      ensures Valid()
      ensures t <= l && NoDup(l[|t|..]) && forall x :: x in l[|t|..] ==> x !in t
      ensures forall x :: x in l <==> x in t || (x in Closure(nfa, SetOf(t)) && Important(nfa, x))
      ensures forall v :: v in acc <==> v != 0 && exists x :: x in Closure(nfa, SetOf(t)) && nfa.accptnum[x] == v
      ensures hash == SumIn(l, |nfa.transchar|)
      ensures NoDup(stk) && SetOf(stk) == Closure(nfa, SetOf(t))
    {
      ghost var h: seq<int>;
      acc, hash, h := SeeInitial(t);
      l := t;
      var stkpos := 0;
      NoDupCount(nfa, stk);
      while stkpos < |stk|
        invariant WellFormed(nfa) && stkpos <= |stk| <= |nfa.transchar|
        invariant Going(l, acc, hash, t, h) && Expanded(nfa, stk, stkpos)
        decreases |nfa.transchar| - stkpos
      {
        l, acc, hash, h := Expand(stkpos, l, acc, hash, t, h);
        NoDupCount(nfa, stk);
        stkpos := stkpos + 1;
      }
      SearchDone(nfa, trans1[..], stk, l, acc, hash, h, t);
      Unmark();
    }
  }

  lemma MarkOne(a: Nfa, t: seq<int>, stk: seq<int>, x: int)
    requires WellFormed(a) && Marked(a, t, stk) && IsState(a, x) && x !in stk
    ensures Marked(a, t[x := t[x] - MARKER_DIFFERENCE], stk + [x])
    ensures t[x] >= 0
  {
  }

  /** A state not seen yet is in the list only if it is an initial one. */
  lemma AddedOnce(a: Nfa, t: seq<int>, stk: seq<int>, l: seq<int>, acc: seq<int>, init: seq<int>, x: int)
    requires WellFormed(a) && Searching(a, t, stk, l, acc, init) && x !in stk
    ensures x in l <==> x in init
  {
    assert l == init + l[|init|..];
  }

  lemma {:induction false} EmptySum(n: nat)
    ensures SumIn([], n) == 0
    decreases n
  {
    if n > 0 { EmptySum(n - 1); }
  }

  lemma StateListAt(a: Nfa, t: seq<int>)
    requires StateList(a, t)
    ensures forall i :: 0 <= i < |t| ==> IsState(a, t[i])
  {
  }

  lemma SearchStarts(a: Nfa, u: seq<int>, t: seq<int>)
    requires WellFormed(a) && u == a.trans1 && StateList(a, t)
    ensures Searching(a, u, [], t, [], t) && Hashed(0, [], [], t, |a.transchar|) && |u| == |a.transchar|
  {
    EmptySum(|a.transchar|);
  }

  lemma MarkedIff(a: Nfa, t: seq<int>, stk: seq<int>, l: seq<int>, acc: seq<int>, init: seq<int>, x: int)
    requires WellFormed(a) && Searching(a, t, stk, l, acc, init) && IsState(a, x)
    ensures |t| == |a.transchar| && (t[x] < 0 <==> x in stk)
  {
  }

  lemma SeenState(a: Nfa, t: seq<int>, stk: seq<int>, l: seq<int>, acc: seq<int>, init: seq<int>, i: nat)
    requires WellFormed(a) && Searching(a, t, stk, l, acc, init) && i < |stk|
    ensures stk[i] in stk && IsState(a, stk[i]) && |t| == |a.transchar| == |a.trans1| == |a.trans2|
    ensures t[stk[i]] + MARKER_DIFFERENCE == a.trans1[stk[i]]
    ensures IsState(a, a.trans1[stk[i]]) && IsState(a, a.trans2[stk[i]])
    ensures Epsilon(a, stk[i]) && a.trans1[stk[i]] == NO_TRANSITION ==> a.trans2[stk[i]] == NO_TRANSITION
  {
  }

  lemma ExpandedNext(a: Nfa, was: seq<int>, stk: seq<int>, k: nat)
    requires WellFormed(a) && Expanded(a, was, k) && k < |was| && was <= stk
    requires IsState(a, stk[k]) && forall y :: EpsEdge(a, stk[k], y) ==> y in stk
    ensures Expanded(a, stk, k + 1)
  {
    forall i, y | 0 <= i < k + 1 && IsState(a, stk[i]) && EpsEdge(a, stk[i], y) ensures y in stk {
      if i < k { assert was[i] == stk[i] && y in was; }
    }
  }

  lemma SearchReaches(a: Nfa, stk: seq<int>, t: seq<int>, x: int)
    requires WellFormed(a) && Expanded(a, stk, |stk|) && (forall x :: x in t ==> x in stk)
    requires EpsReach(a, SetOf(t), x)
    ensures x in stk
  {
    var p :| EpsPath(a, SetOf(t), p) && p[|p| - 1] == x;
    forall y, z | y in stk && IsState(a, y) && EpsEdge(a, y, z) ensures z in stk {
      var i :| 0 <= i < |stk| && stk[i] == y;
    }
    EpsInside(a, SetOf(t), stk, p, |p| - 1);
  }

  lemma SearchSet(a: Nfa, u: seq<int>, stk: seq<int>, l: seq<int>, acc: seq<int>, t: seq<int>)
    requires WellFormed(a) && Expanded(a, stk, |stk|) && (forall x :: x in t ==> x in stk)
    requires Searching(a, u, stk, l, acc, t)
    ensures SetOf(stk) == Closure(a, SetOf(t))
  {
    forall x ensures x in stk <==> x in Closure(a, SetOf(t)) {
      if x in Closure(a, SetOf(t)) { SearchReaches(a, stk, t, x); }
    }
  }

  /** When everything seen has been expanded, what has been seen is the closure. */
  lemma SearchDone(a: Nfa, u: seq<int>, stk: seq<int>, l: seq<int>, acc: seq<int>, hash: int, h: seq<int>, t: seq<int>)
    requires WellFormed(a) && Expanded(a, stk, |stk|) && (forall x :: x in t ==> x in stk)
    requires Searching(a, u, stk, l, acc, t)
    requires Hashed(hash, h, stk, l, |a.transchar|)
    ensures SetOf(stk) == Closure(a, SetOf(t))
    ensures forall x :: x in l <==> x in t || (x in Closure(a, SetOf(t)) && Important(a, x))
    ensures hash == SumIn(l, |a.transchar|)
    ensures t <= l && NoDup(l[|t|..]) && forall x :: x in l[|t|..] ==> x !in t
    ensures forall v :: v in acc <==> v != 0 && exists x :: x in Closure(a, SetOf(t)) && a.accptnum[x] == v
    ensures NoDup(stk) && StateList(a, stk) && Marked(a, u, stk)
  {
    SearchSet(a, u, stk, l, acc, t);
    hide WellFormed, Expanded;
    assert l == t + l[|t|..];
    assert forall x :: x in Closure(a, SetOf(t)) <==> x in SetOf(stk);
    SumSame(h, l, |a.transchar|);
    AcceptSame(a, stk, Closure(a, SetOf(t)), acc);
  }

  lemma AcceptSame(a: Nfa, stk: seq<int>, c: set<int>, acc: seq<int>)
    requires WellFormed(a) && StateList(a, stk) && (forall x :: x in c <==> x in stk)
    requires forall v :: v in acc <==> v != 0 && exists x :: x in stk && a.accptnum[x] == v
    ensures forall x :: x in c ==> IsState(a, x)
    ensures forall v :: v in acc <==> v != 0 && exists x :: x in c && a.accptnum[x] == v
  {
  }
}
