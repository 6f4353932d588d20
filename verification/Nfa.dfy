/** The machine that setup/setup-flex/dfa.c turns into a deterministic one: its tables, what a string of
    equivalence classes can reach in it, and when a list of states stands for a set of states. */
module Nfa {
  import opened Ecs

  const CSIZE: int := 256
  const MAXIMUM_MNS: int := 31999
  const MARKER_DIFFERENCE: int := MAXIMUM_MNS + 2
  const SYM_EPSILON: int := CSIZE + 1
  const NO_TRANSITION: int := 0

  /** States are the indices of transchar. ccls[c] holds the members of class c as stored (0 for NUL's number). */
  datatype Nfa = Nfa(
    transchar: seq<int>, trans1: seq<int>, trans2: seq<int>, accptnum: seq<int>,
    ccls: seq<seq<int>>, cclng: seq<bool>, ecgroup: seq<int>,
    numecs: nat, nulEc: int, csize: nat, numRules: nat)

  predicate IsState(a: Nfa, x: int) { 0 <= x < |a.transchar| }

  predicate Epsilon(a: Nfa, x: int)
    requires IsState(a, x)
  {
    a.transchar[x] == SYM_EPSILON
  }

  /** The class a state's negative transition character stands for. */
  function ClassOf(a: Nfa, x: int): int
    requires IsState(a, x)
  {
    -a.transchar[x]
  }

  ghost predicate WellFormed(a: Nfa) {
    && |a.trans1| == |a.trans2| == |a.accptnum| == |a.transchar|
    && a.numecs >= 1 && a.nulEc >= 1 && 1 <= a.csize <= CSIZE && |a.ecgroup| >= a.csize && |a.cclng| == |a.ccls|
    && (forall x :: IsState(a, x) ==>
          && 0 <= a.trans1[x] < |a.transchar| && a.trans1[x] <= MAXIMUM_MNS
          && 0 <= a.trans2[x] < |a.transchar|
          && 0 <= a.accptnum[x] <= a.numRules
          && (Epsilon(a, x) && a.trans2[x] != NO_TRANSITION ==> a.trans1[x] != NO_TRANSITION)
          && (a.transchar[x] == SYM_EPSILON || (-|a.ccls| < a.transchar[x] < a.csize))
          && (0 <= a.transchar[x] < a.csize ==> 1 <= a.ecgroup[a.transchar[x]] <= a.numecs))
    && (forall c :: 0 <= c < |a.ccls| ==> |a.ccls[c]| <= CSIZE && Ascending(Mapped(a.ccls[c], a.nulEc), a.numecs))
  }

  // ----- meaning -----

  ghost predicate EpsEdge(a: Nfa, x: int, y: int)
    requires WellFormed(a) && IsState(a, x)
  {
    Epsilon(a, x) && y != NO_TRANSITION && (y == a.trans1[x] || y == a.trans2[x])
  }

  ghost predicate EpsPath(a: Nfa, s: set<int>, p: seq<int>)
    requires WellFormed(a)
  {
    && |p| > 0 && p[0] in s && (forall i :: 0 <= i < |p| ==> IsState(a, p[i]))
    && forall i :: 0 <= i < |p| - 1 ==> EpsEdge(a, p[i], p[i + 1])
  }

  /** x can be reached from s by epsilon transitions alone. */
  ghost predicate EpsReach(a: Nfa, s: set<int>, x: int)
    requires WellFormed(a)
  {
    exists p :: EpsPath(a, s, p) && p[|p| - 1] == x
  }

  ghost function Below(n: nat): (s: set<int>)
    ensures |s| == n && forall x :: x in s <==> 0 <= x < n
  {
    if n == 0 then {} else Below(n - 1) + {n - 1}
  }

  ghost function Closure(a: Nfa, s: set<int>): (c: set<int>)
    requires WellFormed(a)
    ensures forall x :: x in c <==> IsState(a, x) && EpsReach(a, s, x)
  {
    set x | x in Below(|a.transchar|) && EpsReach(a, s, x)
  }

  /** State x has a transition on class e. */
  predicate Matches(a: Nfa, x: int, e: int)
    requires WellFormed(a) && IsState(a, x)
  {
    if a.transchar[x] < 0 then
      (e in Mapped(a.ccls[ClassOf(a, x)], a.nulEc)) != a.cclng[ClassOf(a, x)]
    else
      !Epsilon(a, x) && Abs(a.ecgroup[a.transchar[x]]) == e
  }

  ghost function Move(a: Nfa, s: set<int>, e: int): (r: set<int>)
    requires WellFormed(a)
    ensures forall y :: y in r <==> exists x :: x in s && IsState(a, x) && Matches(a, x, e) && a.trans1[x] == y
  {
    set x | x in s && IsState(a, x) && Matches(a, x, e) :: a.trans1[x]
  }

  /** The states the string w can reach from state start. */
  ghost function Reached(a: Nfa, start: int, w: seq<int>): set<int>
    requires WellFormed(a)
    decreases |w|
  {
    if w == [] then Closure(a, {start})
    else Closure(a, Move(a, Reached(a, start, w[..|w| - 1]), w[|w| - 1]))
  }

  // ----- lists of states -----

  ghost predicate StateList(a: Nfa, l: seq<int>) {
    forall i :: 0 <= i < |l| ==> IsState(a, l[i])
  }

  ghost function SetOf(l: seq<int>): (s: set<int>)
    ensures forall x :: x in s <==> x in l
  {
    set x | x in l
  }

  /** The states that matter beyond the closure: accepting ones, and ones with a symbol transition. */
  predicate Important(a: Nfa, x: int)
    requires WellFormed(a) && IsState(a, x)
  {
    a.accptnum[x] != 0 || !Epsilon(a, x)
  }

  /** The list stands for the set: it holds members only, and all the important ones. */
  ghost predicate Denotes(a: Nfa, l: seq<int>, s: set<int>)
    requires WellFormed(a)
  {
    && StateList(a, l)
    && (forall x :: x in l ==> x in s)
    && (forall x :: x in s && IsState(a, x) && Important(a, x) ==> x in l)
  }

  /** The targets of the matching states, in list order and with repetitions: symfollowset's result. */
  function Follow(a: Nfa, l: seq<int>, e: int): (r: seq<int>)
    requires WellFormed(a) && StateList(a, l)
    ensures |r| <= |l|
    decreases |l|
  {
    if l == [] then []
    else
      var x, front := l[|l| - 1], Follow(a, l[..|l| - 1], e);
      if Matches(a, x, e) then front + [a.trans1[x]] else front
  }

  lemma {:induction false} FollowStates(a: Nfa, l: seq<int>, e: int)
    requires WellFormed(a) && StateList(a, l)
    ensures StateList(a, Follow(a, l, e))
    decreases |l|
  {
    if l != [] { FollowStates(a, l[..|l| - 1], e); }
  }

  lemma FollowMore(a: Nfa, l: seq<int>, i: nat, e: int)
    requires WellFormed(a) && StateList(a, l) && i < |l|
    ensures Follow(a, l[..i + 1], e) == Follow(a, l[..i], e) + if Matches(a, l[i], e) then [a.trans1[l[i]]] else []
  {
    hide Matches, WellFormed;
    assert l[..i + 1][..i] == l[..i];
  }

  predicate Enters(a: Nfa, x: int, e: int, y: int)
    requires WellFormed(a) && IsState(a, x)
  {
    Matches(a, x, e) && a.trans1[x] == y
  }

  lemma {:induction false} FollowEnters(a: Nfa, l: seq<int>, k: nat, e: int, y: int)
    requires WellFormed(a) && StateList(a, l) && k <= |l|
    ensures y in Follow(a, l[..k], e) <==> exists i :: 0 <= i < k && Enters(a, l[i], e, y)
    decreases k
  {
    hide Matches, WellFormed, Follow, Enters;
    if k > 0 {
      FollowEnters(a, l, k - 1, e, y);
      FollowEnds(a, l, k - 1, e, y);
    } else {
      FollowNone(a, l, e);
    }
  }

  lemma FollowNone(a: Nfa, l: seq<int>, e: int)
    requires WellFormed(a) && StateList(a, l)
    ensures Follow(a, l[..0], e) == []
  {
  }

  lemma FollowEnds(a: Nfa, l: seq<int>, i: nat, e: int, y: int)
    requires WellFormed(a) && StateList(a, l) && i < |l|
    ensures y in Follow(a, l[..i + 1], e) <==> y in Follow(a, l[..i], e) || Enters(a, l[i], e, y)
  {
    FollowMore(a, l, i, e);
    hide Matches, WellFormed, Follow;
  }

  lemma FollowIs(a: Nfa, l: seq<int>, e: int)
    requires WellFormed(a) && StateList(a, l)
    ensures StateList(a, Follow(a, l, e))
    ensures forall y :: y in Follow(a, l, e) <==> exists i :: 0 <= i < |l| && Enters(a, l[i], e, y)
  {
    FollowStates(a, l, e);
    assert l[..|l|] == l;
    forall y ensures y in Follow(a, l, e) <==> exists i :: 0 <= i < |l| && Enters(a, l[i], e, y) {
      FollowEnters(a, l, |l|, e, y);
    }
  }

  /** A list that stands for a set moves as the set does: what was dropped has no symbol transition. */
  lemma FollowMoves(a: Nfa, l: seq<int>, s: set<int>, e: int)
    requires WellFormed(a) && Denotes(a, l, s)
    ensures SetOf(Follow(a, l, e)) == Move(a, s, e)
  {
    FollowIs(a, l, e);
    forall y ensures y in SetOf(Follow(a, l, e)) <==> y in Move(a, s, e) {
      if y in Move(a, s, e) {
        var x :| x in s && IsState(a, x) && Matches(a, x, e) && a.trans1[x] == y;
        assert Important(a, x) && x in l;
        var i :| 0 <= i < |l| && l[i] == x;
        assert Enters(a, l[i], e, y);
      }
    }
  }

  /** The least accepting number in a list, or 0 if there is none. */
  ghost predicate LeastAccept(a: Nfa, s: set<int>, v: int)
    requires WellFormed(a)
  {
    && (v == 0 <==> forall x :: x in s && IsState(a, x) ==> a.accptnum[x] == 0)
    && (v != 0 ==> (exists x :: x in s && IsState(a, x) && a.accptnum[x] == v)
                   && forall x :: x in s && IsState(a, x) && a.accptnum[x] != 0 ==> v <= a.accptnum[x])
  }

  /** A list and the set it stands for have the same least accepting number. */
  lemma DenotesAccept(a: Nfa, l: seq<int>, s: set<int>, v: int)
    requires WellFormed(a) && Denotes(a, l, s) && LeastAccept(a, SetOf(l), v)
    ensures LeastAccept(a, s, v)
  {
    forall x | x in s && IsState(a, x) && a.accptnum[x] != 0 ensures x in l {
      assert Important(a, x);
    }
  }
}
