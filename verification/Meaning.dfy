/** What the machine means, state by state and character by character, without the tables of the subset construction:
    where a state leads on each word, and what becomes of the classes that were registered. */
module Meaning {
  import opened Chains
  import opened Ecs
  import opened EcNumbers
  import opened Nfa
  import EpsClosure
  import DfaStates
  import Subset

  // ----- states -----

  lemma ClosureUnion(a: Nfa, s: set<int>, t: set<int>)
    requires WellFormed(a)
    ensures Closure(a, s + t) == Closure(a, s) + Closure(a, t)
  {
    forall x | IsState(a, x) ensures EpsReach(a, s + t, x) <==> EpsReach(a, s, x) || EpsReach(a, t, x) {
      if EpsReach(a, s + t, x) {
        var p :| EpsPath(a, s + t, p) && p[|p| - 1] == x;
        assert EpsPath(a, s, p) || EpsPath(a, t, p);
      }
      if EpsReach(a, s, x) {
        var p :| EpsPath(a, s, p) && p[|p| - 1] == x;
        assert EpsPath(a, s + t, p);
      }
      if EpsReach(a, t, x) {
        var p :| EpsPath(a, t, p) && p[|p| - 1] == x;
        assert EpsPath(a, s + t, p);
      }
    }
  }

  lemma ClosureNone(a: Nfa)
    requires WellFormed(a)
    ensures Closure(a, {}) == {}
  {
  }

  lemma MoveUnion(a: Nfa, s: set<int>, t: set<int>, e: int)
    requires WellFormed(a)
    ensures Move(a, s + t, e) == Move(a, s, e) + Move(a, t, e)
  {
    hide WellFormed, Matches;
  }

  /** A state with a symbol has nothing but itself in its closure. */
  lemma ClosureSymbol(a: Nfa, x: int)
    requires WellFormed(a) && IsState(a, x) && a.transchar[x] != SYM_EPSILON
    ensures Closure(a, {x}) == {x}
  {
    EpsClosure.EpsStart(a, {x}, x);
    forall y ensures !EpsEdge(a, x, y) {}
    hide WellFormed, EpsEdge;
    forall y | IsState(a, y) && EpsReach(a, {x}, y) ensures y == x {
      var p :| EpsPath(a, {x}, p) && p[|p| - 1] == y;
      if |p| > 1 { FirstEdge(a, {x}, p); }
    }
  }

  lemma FirstEdge(a: Nfa, s: set<int>, p: seq<int>)
    requires WellFormed(a) && EpsPath(a, s, p) && |p| > 1
    ensures IsState(a, p[0]) && p[0] in s && EpsEdge(a, p[0], p[1])
  {
  }

  /** The targets of an epsilon state. */
  ghost function Targets(a: Nfa, x: int): (t: set<int>)
    requires WellFormed(a) && IsState(a, x)
    ensures forall y :: y in t <==> y != NO_TRANSITION && (y == a.trans1[x] || y == a.trans2[x])
  {
    (if a.trans1[x] != NO_TRANSITION then {a.trans1[x]} else {})
    + if a.trans2[x] != NO_TRANSITION then {a.trans2[x]} else {}
  }

  lemma ClosureEpsilon(a: Nfa, x: int)
    requires WellFormed(a) && IsState(a, x) && a.transchar[x] == SYM_EPSILON
    ensures Closure(a, {x}) == {x} + Closure(a, Targets(a, x))
  {
    EpsClosure.EpsStart(a, {x}, x);
    forall y | IsState(a, y) && EpsReach(a, {x}, y) ensures y == x || EpsReach(a, Targets(a, x), y) {
      var p :| EpsPath(a, {x}, p) && p[|p| - 1] == y;
      if |p| > 1 {
        assert EpsEdge(a, p[0], p[1]);
        var q := p[1..];
        forall i | 0 <= i < |q| - 1 ensures EpsEdge(a, q[i], q[i + 1]) { assert EpsEdge(a, p[i + 1], p[i + 2]); }
        assert EpsPath(a, Targets(a, x), q);
      }
    }
    forall y | IsState(a, y) && EpsReach(a, Targets(a, x), y) ensures EpsReach(a, {x}, y) {
      var q :| EpsPath(a, Targets(a, x), q) && q[|q| - 1] == y;
      var p := [x] + q;
      forall i | 0 <= i < |p| - 1 ensures EpsEdge(a, p[i], p[i + 1]) {
        if i > 0 { assert EpsEdge(a, q[i - 1], q[i]); }
      }
      assert EpsPath(a, {x}, p);
    }
  }

  /** From a set of states. */
  ghost function ReachedFrom(a: Nfa, s: set<int>, w: seq<int>): set<int>
    requires WellFormed(a)
    decreases |w|
  {
    if w == [] then Closure(a, s) else Closure(a, Move(a, ReachedFrom(a, s, w[..|w| - 1]), w[|w| - 1]))
  }

  lemma {:induction false} ReachedIsFrom(a: Nfa, x: int, w: seq<int>)
    requires WellFormed(a)
    ensures Reached(a, x, w) == ReachedFrom(a, {x}, w)
    decreases |w|
  {
    if w != [] { ReachedIsFrom(a, x, w[..|w| - 1]); }
  }

  lemma {:induction false} FromUnion(a: Nfa, s: set<int>, t: set<int>, w: seq<int>)
    requires WellFormed(a)
    ensures ReachedFrom(a, s + t, w) == ReachedFrom(a, s, w) + ReachedFrom(a, t, w)
    decreases |w|
  {
    hide WellFormed, Matches;
    if w == [] {
      ClosureUnion(a, s, t);
    } else {
      var front, e := w[..|w| - 1], w[|w| - 1];
      FromUnion(a, s, t, front);
      MoveUnion(a, ReachedFrom(a, s, front), ReachedFrom(a, t, front), e);
      ClosureUnion(a, Move(a, ReachedFrom(a, s, front), e), Move(a, ReachedFrom(a, t, front), e));
    }
  }

  lemma {:induction false} FromNone(a: Nfa, w: seq<int>)
    requires WellFormed(a)
    ensures ReachedFrom(a, {}, w) == {}
    decreases |w|
  {
    ClosureNone(a);
    if w != [] {
      FromNone(a, w[..|w| - 1]);
      assert Move(a, {}, w[|w| - 1]) == {};
    }
  }

  lemma EpsilonStays(a: Nfa, x: int, e: int)
    requires WellFormed(a) && IsState(a, x) && a.transchar[x] == SYM_EPSILON
    ensures Move(a, {x}, e) == {}
  {
  }

  lemma FromStep(a: Nfa, s: set<int>, w: seq<int>)
    requires WellFormed(a)
    ensures w == [] ==> ReachedFrom(a, s, w) == Closure(a, s)
    ensures w != [] ==> ReachedFrom(a, s, w) == Closure(a, Move(a, ReachedFrom(a, s, w[..|w| - 1]), w[|w| - 1]))
  {
  }

  lemma {:induction false} EpsilonFrom(a: Nfa, x: int, w: seq<int>)
    requires WellFormed(a) && IsState(a, x) && a.transchar[x] == SYM_EPSILON
    ensures ReachedFrom(a, {x}, w) == (if w == [] then {x} else {}) + ReachedFrom(a, Targets(a, x), w)
    decreases |w|
  {
    hide *;
    var t := Targets(a, x);
    FromStep(a, {x}, w);
    FromStep(a, t, w);
    if w == [] {
      ClosureEpsilon(a, x);
    } else {
      var front, e := w[..|w| - 1], w[|w| - 1];
      EpsilonFrom(a, x, front);
      EpsilonStays(a, x, e);
      var r := ReachedFrom(a, t, front);
      if front == [] {
        MoveUnion(a, {x}, r, e);
        assert {} + Move(a, r, e) == Move(a, r, e);
      } else {
        assert {} + r == r;
      }
      assert {} + ReachedFrom(a, t, w) == ReachedFrom(a, t, w);
    }
  }

  /** An epsilon state reaches, on every word, what its targets reach, and on the empty word itself. */
  lemma EpsilonReaches(a: Nfa, x: int, w: seq<int>)
    requires WellFormed(a) && IsState(a, x) && a.transchar[x] == SYM_EPSILON
    ensures |a.trans1| == |a.trans2| == |a.transchar|
    ensures Reached(a, x, w) ==
            (if w == [] then {x} else {})
            + (if a.trans1[x] != 0 then Reached(a, a.trans1[x], w) else {})
            + (if a.trans2[x] != 0 then Reached(a, a.trans2[x], w) else {})
  {
    SameLengths(a);
    var t1, t2 := if a.trans1[x] != 0 then {a.trans1[x]} else {}, if a.trans2[x] != 0 then {a.trans2[x]} else {};
    assert Targets(a, x) == t1 + t2;
    hide *;
    EpsilonFrom(a, x, w);
    ReachedIsFrom(a, x, w);
    ReachedIsFrom(a, a.trans1[x], w);
    ReachedIsFrom(a, a.trans2[x], w);
    FromNone(a, w);
    FromUnion(a, t1, t2, w);
  }

  lemma SameLengths(a: Nfa)
    requires WellFormed(a)
    ensures |a.trans1| == |a.trans2| == |a.transchar|
  {
  }

  lemma MoveOne(a: Nfa, x: int, e: int)
    requires WellFormed(a) && IsState(a, x)
    ensures |a.trans1| == |a.transchar| && Move(a, {x}, e) == if Matches(a, x, e) then {a.trans1[x]} else {}
    ensures Move(a, {}, e) == {}
  {
    SameLengths(a);
    hide WellFormed, Matches;
  }

  lemma {:induction false} SymbolFrom(a: Nfa, x: int, e: int, w: seq<int>)
    requires WellFormed(a) && IsState(a, x) && a.transchar[x] != SYM_EPSILON
    ensures |a.trans1| == |a.transchar|
    ensures ReachedFrom(a, {x}, [e] + w) == if Matches(a, x, e) then ReachedFrom(a, {a.trans1[x]}, w) else {}
    decreases |w|
  {
    assert 0 <= x < |a.transchar|;
    hide *;
    var all := [e] + w;
    MoveOne(a, x, e);
    ClosureNone(a);
    FromStep(a, {x}, all);
    FromStep(a, {a.trans1[x]}, w);
    if w == [] {
      ClosureSymbol(a, x);
      assert all[..0] == [] && all[0] == e;
      FromStep(a, {x}, []);
    } else {
      var front := w[..|w| - 1];
      SymbolFrom(a, x, e, front);
      assert all[..|all| - 1] == [e] + front;
      MoveOne(a, x, w[|w| - 1]);
    }
  }

  /** Any other state reaches itself on the empty word, and leads on to its target on the symbols it matches. */
  lemma SymbolReaches(a: Nfa, x: int, e: int, w: seq<int>)
    requires WellFormed(a) && IsState(a, x) && a.transchar[x] != SYM_EPSILON
    ensures Reached(a, x, []) == {x}
    ensures Reached(a, x, [e] + w) == if Matches(a, x, e) then Reached(a, a.trans1[x], w) else {}
  {
    ClosureSymbol(a, x);
    SymbolFrom(a, x, e, w);
    ReachedIsFrom(a, x, [e] + w);
    ReachedIsFrom(a, a.trans1[x], w);
  }

  // ----- characters -----

  /** The machine's tables, once the classes have been registered and rewritten: orig are the classes as they were read,
      with NUL as 0; ss are the sets registered. The character NUL is csize, and 0 where it is a state's own. */
  ghost predicate Compiled(a: Nfa, orig: seq<seq<int>>, fwd: seq<int>, bcks: seq<seq<int>>, ss: seq<set<int>>) {
    && WellFormed(a) && Registered(bcks, ss, a.csize) && Numbering(fwd, bcks[|ss|], a.csize, a.ecgroup)
    && a.nulEc == Abs(a.ecgroup[0]) && a.numecs == Rank(bcks[|ss|], a.csize) && |orig| == |a.ccls|
    && (forall k :: 0 < k < |orig| ==> ClassKept(a, orig[k], a.ccls[k], ss))
    && forall x :: IsState(a, x) && 0 <= a.transchar[x] < a.csize ==> {Own(a, x)} in ss
  }

  /** One class: it was read in order, has been registered, and was rewritten. */
  ghost predicate ClassKept(a: Nfa, orig: seq<int>, now: seq<int>, ss: seq<set<int>>) {
    && (forall i :: 0 <= i < |orig| ==> 0 <= orig[i] <= a.csize) && Ascending(Mapped(orig, a.csize), a.csize)
    && Members(Mapped(orig, a.csize)) in ss && now == Representatives(orig, a.ecgroup)
  }

  /** A state's own character. */
  function Own(a: Nfa, x: int): int
    requires IsState(a, x)
  {
    if a.transchar[x] == 0 then a.csize else a.transchar[x]
  }

  lemma ClassLeads(a: Nfa, orig: seq<int>, now: seq<int>, fwd: seq<int>, bcks: seq<seq<int>>, ss: seq<set<int>>, c: int)
    requires Registered(bcks, ss, a.csize) && Numbering(fwd, bcks[|ss|], a.csize, a.ecgroup) && 1 <= c <= a.csize
    requires ClassKept(a, orig, now, ss)
    ensures c < |a.ecgroup| && (Abs(a.ecgroup[c]) in Mapped(now, Abs(a.ecgroup[0])) <==> c in Mapped(orig, a.csize))
  {
    var m := Mapped(orig, a.csize);
    var k :| 0 <= k < |ss| && ss[k] == Members(m);
    RegisteredUncut(bcks, ss, a.csize, m, k);
    hide Registered, Uncut, Mapped, Representatives, Ascending;
    MembershipKept(fwd, bcks[|ss|], a.csize, a.ecgroup, orig, c);
  }

  lemma OwnLeads(a: Nfa, x: int, fwd: seq<int>, bcks: seq<seq<int>>, ss: seq<set<int>>, c: int)
    requires Registered(bcks, ss, a.csize) && Numbering(fwd, bcks[|ss|], a.csize, a.ecgroup) && 1 <= c <= a.csize
    requires IsState(a, x) && 0 <= a.transchar[x] < a.csize && {Own(a, x)} in ss
    ensures |a.ecgroup| == a.csize + 1 && (Abs(a.ecgroup[a.transchar[x]]) == Abs(a.ecgroup[c]) <==> c == Own(a, x))
  {
    var o := Own(a, x);
    assert |a.ecgroup| == a.csize + 1 && a.ecgroup[0] == a.ecgroup[a.csize];
    hide Registered, Numbering;
    NumbersFollowSets(fwd, bcks, ss, a.csize, a.ecgroup, o, c);
    var k :| 0 <= k < |ss| && ss[k] == {o};
    if SameSets(ss, o, c) { assert o in ss[k] <==> c in ss[k]; }
  }

  lemma NumberInRange(fwd: seq<int>, b: seq<int>, n: nat, ec: seq<int>, c: int)
    requires Numbering(fwd, b, n, ec) && 1 <= c <= n
    ensures c < |ec| && n < |b| && 1 <= Abs(ec[c]) <= Rank(b, n)
  {
    NumbersSeparate(fwd, b, n, c, c);
  }

  /** The number of character c leads from a state with class k to its target exactly if c is in the class as it was
      registered, or outside of it if the class is negated. */
  lemma ClassCharacter(a: Nfa, orig: seq<seq<int>>, fwd: seq<int>, bcks: seq<seq<int>>, ss: seq<set<int>>, x: int,
                       c: int, k: int)
    requires WellFormed(a) && Compiled(a, orig, fwd, bcks, ss) && IsState(a, x) && 1 <= c <= a.csize
    requires a.transchar[x] == -k && 0 < k < |orig| == |a.cclng| && c < |a.ecgroup|
    ensures !a.cclng[k] ==> (Matches(a, x, Abs(a.ecgroup[c])) <==> c in Mapped(orig[k], a.csize))
    ensures a.cclng[k] ==> (Matches(a, x, Abs(a.ecgroup[c])) <==> c !in Mapped(orig[k], a.csize))
  {
    hide *;
    CompiledShape(a, orig, fwd, bcks, ss);
    CompiledState(a, orig, fwd, bcks, ss, x);
    ClassLeads(a, orig[k], a.ccls[k], fwd, bcks, ss, c);
    MatchesIs(a, x, Abs(a.ecgroup[c]));
  }

  /** From a state with a character of its own, on that character alone. */
  lemma OwnCharacter(a: Nfa, orig: seq<seq<int>>, fwd: seq<int>, bcks: seq<seq<int>>, ss: seq<set<int>>, x: int, c: int)
    requires WellFormed(a) && Compiled(a, orig, fwd, bcks, ss) && IsState(a, x) && 1 <= c <= a.csize
    requires 0 <= a.transchar[x] < a.csize && c < |a.ecgroup|
    ensures Matches(a, x, Abs(a.ecgroup[c])) <==> c == if a.transchar[x] == 0 then a.csize else a.transchar[x]
  {
    assert 0 <= x < |a.transchar|;
    hide *;
    CompiledShape(a, orig, fwd, bcks, ss);
    CompiledState(a, orig, fwd, bcks, ss, x);
    OwnLeads(a, x, fwd, bcks, ss, c);
    OwnIs(a, x);
    MatchesIs(a, x, Abs(a.ecgroup[c]));
  }

  lemma OwnIs(a: Nfa, x: int)
    requires IsState(a, x)
    ensures Own(a, x) == if a.transchar[x] == 0 then a.csize else a.transchar[x]
  {
  }

  lemma MatchesIs(a: Nfa, x: int, e: int)
    requires WellFormed(a) && IsState(a, x)
    ensures a.transchar[x] < 0 ==> -a.transchar[x] < |a.ccls| == |a.cclng|
    ensures a.transchar[x] < 0 ==>
      (Matches(a, x, e) <==> (e in Mapped(a.ccls[-a.transchar[x]], a.nulEc)) != a.cclng[-a.transchar[x]])
    ensures a.transchar[x] == SYM_EPSILON ==> !Matches(a, x, e)
    ensures 0 <= a.transchar[x] < a.csize ==>
      a.transchar[x] < |a.ecgroup| && (Matches(a, x, e) <==> Abs(a.ecgroup[a.transchar[x]]) == e)
  {
    hide Mapped;
  }

  lemma CompiledState(a: Nfa, orig: seq<seq<int>>, fwd: seq<int>, bcks: seq<seq<int>>, ss: seq<set<int>>, x: int)
    requires Compiled(a, orig, fwd, bcks, ss) && IsState(a, x)
    ensures Registered(bcks, ss, a.csize) && |a.ecgroup| > 0 && a.nulEc == Abs(a.ecgroup[0])
    ensures a.transchar[x] < 0 ==>
      -a.transchar[x] < |orig| == |a.ccls| && ClassKept(a, orig[-a.transchar[x]], a.ccls[-a.transchar[x]], ss)
    ensures 0 <= a.transchar[x] < a.csize ==> {Own(a, x)} in ss
  {
    hide ClassKept, Registered, Numbering;
  }

  lemma StateShape(a: Nfa, x: int)
    requires WellFormed(a) && IsState(a, x)
    ensures a.transchar[x] < 0 || a.transchar[x] == SYM_EPSILON || 0 <= a.transchar[x] < a.csize < SYM_EPSILON
    ensures -a.transchar[x] < |a.ccls| == |a.cclng| || a.transchar[x] >= 0
  {
  }

  lemma CompiledShape(a: Nfa, orig: seq<seq<int>>, fwd: seq<int>, bcks: seq<seq<int>>, ss: seq<set<int>>)
    requires Compiled(a, orig, fwd, bcks, ss)
    ensures WellFormed(a) && |orig| == |a.ccls| && |a.ecgroup| == a.csize + 1 && |bcks| > |ss|
    ensures Numbering(fwd, bcks[|ss|], a.csize, a.ecgroup) && a.numecs == Rank(bcks[|ss|], a.csize)
  {
  }

  /** x has a transition on character c, in terms of the classes as they were read. */
  ghost predicate Takes(a: Nfa, orig: seq<seq<int>>, x: int, c: int)
    requires WellFormed(a) && IsState(a, x) && |orig| == |a.ccls|
  {
    if a.transchar[x] < 0 then (c in Mapped(orig[-a.transchar[x]], a.csize)) != a.cclng[-a.transchar[x]]
    else a.transchar[x] != SYM_EPSILON && c == Own(a, x)
  }

  ghost function TakesMove(a: Nfa, orig: seq<seq<int>>, s: set<int>, c: int): (r: set<int>)
    requires WellFormed(a) && |orig| == |a.ccls|
    ensures forall y :: y in r <==> exists x :: x in s && IsState(a, x) && Takes(a, orig, x, c) && a.trans1[x] == y
  {
    set x | x in s && IsState(a, x) && Takes(a, orig, x, c) :: a.trans1[x]
  }

  /** The states a string of characters can reach. */
  ghost function CharsReach(a: Nfa, orig: seq<seq<int>>, start: int, w: seq<int>): set<int>
    requires WellFormed(a) && |orig| == |a.ccls|
    decreases |w|
  {
    if w == [] then Closure(a, {start})
    else
      Closure(a, TakesMove(a, orig, CharsReach(a, orig, start, w[..|w| - 1]), w[|w| - 1]))
  }

  /** The class numbers of a string of characters. */
  function Numbers(ec: seq<int>, w: seq<int>): (r: seq<int>)
    requires forall i :: 0 <= i < |w| ==> 1 <= w[i] < |ec|
    ensures |r| == |w| && forall i :: 0 <= i < |w| ==> r[i] == Abs(ec[w[i]])
  {
    seq(|w|, i requires 0 <= i < |w| => Abs(ec[w[i]]))
  }

  lemma TakesIs(a: Nfa, orig: seq<seq<int>>, x: int, c: int)
    requires WellFormed(a) && IsState(a, x) && |orig| == |a.ccls|
    ensures a.transchar[x] < 0 ==> -a.transchar[x] < |orig| == |a.cclng|
    ensures a.transchar[x] < 0 ==>
      (Takes(a, orig, x, c) <==> (c in Mapped(orig[-a.transchar[x]], a.csize)) != a.cclng[-a.transchar[x]])
    ensures a.transchar[x] == SYM_EPSILON ==> !Takes(a, orig, x, c)
    ensures 0 <= a.transchar[x] < SYM_EPSILON ==>
      (Takes(a, orig, x, c) <==> c == if a.transchar[x] == 0 then a.csize else a.transchar[x])
  {
    hide Mapped;
  }

  lemma MatchesTakes(a: Nfa, orig: seq<seq<int>>, fwd: seq<int>, bcks: seq<seq<int>>, ss: seq<set<int>>, x: int, c: int)
    requires WellFormed(a) && |orig| == |a.ccls| && 0 <= x < |a.transchar| && IsState(a, x) && 1 <= c <= a.csize < |a.ecgroup|
    requires Compiled(a, orig, fwd, bcks, ss)
    ensures Matches(a, x, Abs(a.ecgroup[c])) <==> Takes(a, orig, x, c)
  {
    hide *;
    CompiledShape(a, orig, fwd, bcks, ss);
    StateShape(a, x);
    NumberInRange(fwd, bcks[|ss|], a.csize, a.ecgroup, c);
    TakesIs(a, orig, x, c);
    MatchesIs(a, x, Abs(a.ecgroup[c]));
    if a.transchar[x] < 0 {
      ClassCharacter(a, orig, fwd, bcks, ss, x, c, -a.transchar[x]);
    } else if a.transchar[x] != SYM_EPSILON {
      OwnCharacter(a, orig, fwd, bcks, ss, x, c);
    }
  }

  lemma MoveTakes(a: Nfa, orig: seq<seq<int>>, fwd: seq<int>, bcks: seq<seq<int>>, ss: seq<set<int>>, s: set<int>, c: int)
    requires Compiled(a, orig, fwd, bcks, ss) && 1 <= c <= a.csize
    ensures c < |a.ecgroup| && Move(a, s, Abs(a.ecgroup[c])) == TakesMove(a, orig, s, c)
  {
    CompiledShape(a, orig, fwd, bcks, ss);
    hide Compiled, Matches, Takes, WellFormed, Move, TakesMove, Registered, Numbering, ClassKept;
    NumberInRange(fwd, bcks[|ss|], a.csize, a.ecgroup, c);
    forall x | IsState(a, x) ensures Matches(a, x, Abs(a.ecgroup[c])) <==> Takes(a, orig, x, c) {
      MatchesTakes(a, orig, fwd, bcks, ss, x, c);
    }
  }

  lemma CharsReachStep(a: Nfa, orig: seq<seq<int>>, start: int, w: seq<int>)
    requires WellFormed(a) && |orig| == |a.ccls|
    ensures w == [] ==> CharsReach(a, orig, start, w) == Closure(a, {start})
    ensures w != [] ==>
      CharsReach(a, orig, start, w) == Closure(a, TakesMove(a, orig, CharsReach(a, orig, start, w[..|w| - 1]), w[|w| - 1]))
  {
  }

  lemma ReachedStep(a: Nfa, start: int, w: seq<int>)
    requires WellFormed(a)
    ensures w == [] ==> Reached(a, start, w) == Closure(a, {start})
    ensures w != [] ==> Reached(a, start, w) == Closure(a, Move(a, Reached(a, start, w[..|w| - 1]), w[|w| - 1]))
  {
  }

  /** A string of characters reaches what its class numbers reach. */
  lemma {:induction false} CharsReachNumbers(a: Nfa, orig: seq<seq<int>>, fwd: seq<int>, bcks: seq<seq<int>>, ss: seq<set<int>>,
                                             start: int, w: seq<int>)
    requires Compiled(a, orig, fwd, bcks, ss) && forall i :: 0 <= i < |w| ==> 1 <= w[i] <= a.csize
    ensures |a.ecgroup| == a.csize + 1
    ensures CharsReach(a, orig, start, w) == Reached(a, start, Numbers(a.ecgroup, w))
    decreases |w|
  {
    CompiledShape(a, orig, fwd, bcks, ss);
    hide Compiled, WellFormed, CharsReach, Reached, Numbers;
    CharsReachStep(a, orig, start, w);
    ReachedStep(a, start, Numbers(a.ecgroup, w));
    if w != [] {
      var front, c, r := w[..|w| - 1], w[|w| - 1], Numbers(a.ecgroup, w);
      CharsReachNumbers(a, orig, fwd, bcks, ss, start, front);
      assert r[..|r| - 1] == Numbers(a.ecgroup, front);
      MoveTakes(a, orig, fwd, bcks, ss, CharsReach(a, orig, start, front), c);
    }
  }

  lemma NumbersAreClasses(a: Nfa, orig: seq<seq<int>>, fwd: seq<int>, bcks: seq<seq<int>>, ss: seq<set<int>>, w: seq<int>)
    requires Compiled(a, orig, fwd, bcks, ss) && forall i :: 0 <= i < |w| ==> 1 <= w[i] <= a.csize
    ensures |a.ecgroup| == a.csize + 1 && Subset.Classes(a, Numbers(a.ecgroup, w))
  {
    forall i | 0 <= i < |w| ensures 1 <= Abs(a.ecgroup[w[i]]) <= a.numecs {
      NumberInRange(fwd, bcks[|ss|], a.csize, a.ecgroup, w[i]);
    }
  }

  /** From the classes as they were read to the tables: on every string of characters, the tables, followed on the
      characters' numbers, lead to the DFA state that stands for what the string reaches. */
  lemma CharactersMeaning(a: Nfa, orig: seq<seq<int>>, fwd: seq<int>, bcks: seq<seq<int>>, ss: seq<set<int>>,
                          dss: seq<seq<int>>, dhash: seq<int>, dfaacc: seq<int>, nxt: seq<seq<int>>, start: int, d: int,
                          w: seq<int>)
    requires Compiled(a, orig, fwd, bcks, ss) && forall i :: 0 <= i < |w| ==> 1 <= w[i] <= a.csize
    requires DfaStates.Table(a, dss, dhash, dfaacc) && Subset.Transitions(a, dss, nxt, |dss| - 1)
    requires 1 <= d < |dss| && Denotes(a, dss[d], Closure(a, {start}))
    ensures |a.ecgroup| == a.csize + 1
    ensures Subset.StandsFor(a, dss, dfaacc, Subset.Run(nxt, d, Numbers(a.ecgroup, w)), CharsReach(a, orig, start, w))
  {
    CompiledShape(a, orig, fwd, bcks, ss);
    hide Compiled, CharsReach, Reached, WellFormed;
    NumbersAreClasses(a, orig, fwd, bcks, ss, w);
    CharsReachNumbers(a, orig, fwd, bcks, ss, start, w);
    Subset.MeaningPreserved(a, dss, dhash, dfaacc, nxt, start, d, Numbers(a.ecgroup, w));
  }

  // ----- an example -----

  /** Two characters, a (1) and NUL (2). State 1 is [^a], leads to state 2 and is read from class 1, which holds a. */
  function Negated(): Nfa {
    Nfa([SYM_EPSILON, -1, SYM_EPSILON], [0, 2, 0], [0, 0, 0], [0, 0, 1], [[], [1]], [false, true], [2, 1, 2], 2, 2, 2, 1)
  }

  const ONE_CHAIN := [0, 0, 1]
  const TWO_CHAINS := [0, 0, 0]

  lemma ExampleChains()
    ensures Registered([ONE_CHAIN, TWO_CHAINS], [{1}], 2) && Linked(TWO_CHAINS, TWO_CHAINS, 2)
    ensures Number(TWO_CHAINS, 1) == 1 && Number(TWO_CHAINS, 2) == 2 && Rank(TWO_CHAINS, 2) == 2
  {
    assert Head(ONE_CHAIN, 1) == 1 && Head(ONE_CHAIN, 2) == 1;
    assert Head(TWO_CHAINS, 1) == 1 && Head(TWO_CHAINS, 2) == 2;
    assert Rank(TWO_CHAINS, 0) == 0 && Rank(TWO_CHAINS, 1) == 1;
  }

  lemma ExampleClass()
    ensures Mapped([], 2) == [] && Mapped([1], 2) == [1]
    ensures ClassKept(Negated(), [1], [1], [{1}])
  {
    assert Members(Mapped([1], 2)) == {1};
    assert [1][..0] == [];
    assert Representatives([], [2, 1, 2]) == [];
    assert Representatives([1], [2, 1, 2]) == [] + [Stored(1)];
    assert [{1}][0] == {1};
  }

  lemma ExampleFormed()
    ensures WellFormed(Negated())
  {
    ExampleClass();
    hide Mapped;
    var a := Negated();
    assert a.ccls[0] == [] && a.ccls[1] == [1] && |a.ccls| == |a.cclng| == 2;
    assert Ascending([], 2) && Ascending([1], 2);
    hide Ascending;
    assert a.trans1[0] == a.trans1[2] == 0 && a.trans1[1] == 2 && a.trans2[0] == a.trans2[1] == a.trans2[2] == 0;
    assert a.accptnum[0] == a.accptnum[1] == 0 && a.accptnum[2] == 1;
    assert a.transchar[0] == a.transchar[2] == SYM_EPSILON && a.transchar[1] == -1;
    forall x | IsState(a, x) ensures x == 0 || x == 1 || x == 2 {}
  }

  lemma ExampleNumbering()
    ensures Numbering(TWO_CHAINS, [ONE_CHAIN, TWO_CHAINS][1], 2, [2, 1, 2]) && Rank(TWO_CHAINS, 2) == 2
    ensures Registered([ONE_CHAIN, TWO_CHAINS], [{1}], 2)
  {
    ExampleChains();
    hide Registered, Linked, Number, Rank;
  }

  lemma ExampleCompiled()
    ensures Compiled(Negated(), [[], [1]], TWO_CHAINS, [ONE_CHAIN, TWO_CHAINS], [{1}])
  {
    ExampleClass();
    ExampleFormed();
    ExampleNumbering();
    hide WellFormed, Registered, Numbering, Rank, ClassKept;
  }

  /** The negated class lets the state move on NUL, and not on a. */
  lemma NegatedClassMoves()
    ensures WellFormed(Negated()) && !Matches(Negated(), 1, 1) && Matches(Negated(), 1, 2)
  {
    ExampleCompiled();
    ExampleShape();
    hide *;
    var a := Negated();
    ClassCharacter(a, [[], [1]], TWO_CHAINS, [ONE_CHAIN, TWO_CHAINS], [{1}], 1, 1, 1);
    ClassCharacter(a, [[], [1]], TWO_CHAINS, [ONE_CHAIN, TWO_CHAINS], [{1}], 1, 2, 1);
  }

  lemma ExampleShape()
    ensures var a := Negated();
            && WellFormed(a) && |a.transchar| == 3 && a.transchar[1] == -1 && a.csize == 2 && a.ecgroup == [2, 1, 2]
            && |a.cclng| == 2 && a.cclng[1] && IsState(a, 1)
    ensures Mapped([1], 2) == [1] && Abs(1) == 1 && Abs(2) == 2
  {
    ExampleCompiled();
  }
}
