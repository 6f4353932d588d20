/** The list of DFA states (setup/setup-flex/dfa.c, snstods): one DFA state for each sorted list of states. */
module DfaStates {
  import opened Nfa
  import opened EpsClosure

  ghost predicate Sorted(l: seq<int>) {
    forall i, j :: 0 <= i < j < |l| ==> l[i] <= l[j]
  }

  function Swapped(v: seq<int>, j: nat): (r: seq<int>)
    requires j + 1 < |v|
    ensures multiset(r) == multiset(v) && |r| == |v|
  {
    assert v == v[..j] + [v[j], v[j + 1]] + v[j + 2..];
    v[..j] + [v[j + 1], v[j]] + v[j + 2..]
  }

  /** Elements in front of i are not greater than those from i on, which are in order. */
  ghost predicate SortedFrom(v: seq<int>, i: nat) {
    && i <= |v| && (forall k, m :: 0 <= k < i <= m < |v| ==> v[k] <= v[m])
    && forall k, m :: i <= k < m < |v| ==> v[k] <= v[m]
  }

  lemma SwappedSortedFrom(v: seq<int>, i: nat, j: nat)
    requires SortedFrom(v, i) && j + 1 < i
    ensures SortedFrom(Swapped(v, j), i)
    ensures forall k :: 0 <= k < |v| ==> Swapped(v, j)[k] == if k == j then v[j + 1] else if k == j + 1 then v[j] else v[k]
  {
    var w := Swapped(v, j);
    forall k | 0 <= k < |w| ensures w[k] == if k == j then v[j + 1] else if k == j + 1 then v[j] else v[k] {}
  }

  /** One pass of bubble: the greatest of the first i elements ends up at i - 1. */
  method Pass(v0: seq<int>, i: nat) returns (v: seq<int>)
    requires 1 < i && SortedFrom(v0, i)
    ensures multiset(v) == multiset(v0) && SortedFrom(v, i) && |v| == |v0|
    ensures forall k :: 0 <= k < i ==> v[k] <= v[i - 1]
  {
    hide Swapped;
    v := v0;
    var j := 0;
    while j < i - 1
      invariant j <= i - 1 && |v| == |v0| && multiset(v) == multiset(v0) && SortedFrom(v, i)
      invariant forall k :: 0 <= k < j ==> v[k] <= v[j]
    {
      if v[j] > v[j + 1] {
        SwappedSortedFrom(v, i, j);
        v := Swapped(v, j);
      }
      j := j + 1;
    }
  }

  /** bubble. */
  method Bubble(v0: seq<int>) returns (v: seq<int>)
    ensures Sorted(v) && multiset(v) == multiset(v0) && |v| == |v0|
  {
    v := v0;
    var i := |v|;
    while i > 1
      invariant 0 <= i <= |v| == |v0| && multiset(v) == multiset(v0) && SortedFrom(v, i)
    {
      v := Pass(v, i);
      i := i - 1;
    }
  }

  lemma InMultiset(k: seq<int>, x: int)
    ensures x in multiset(k) <==> exists i :: 0 <= i < |k| && k[i] == x
  {
  }

  /** The first elements of two sorted lists with the same elements agree. */
  lemma SameFirst(k: seq<int>, l: seq<int>)
    requires Sorted(k) && Sorted(l) && multiset(k) == multiset(l) && |k| > 0 && |l| > 0
    ensures k[0] <= l[0]
  {
    InMultiset(l, l[0]);
    InMultiset(k, l[0]);
    var j :| 0 <= j < |k| && k[j] == l[0];
  }

  lemma TailElements(k: seq<int>)
    requires k != []
    ensures multiset(k[1..]) == multiset(k) - multiset{k[0]} && k == [k[0]] + k[1..]
  {
    assert k == [k[0]] + k[1..];
  }

  /** A sorted list is determined by its elements and their multiplicities. */
  lemma {:induction false} SortedUnique(k: seq<int>, l: seq<int>)
    requires Sorted(k) && Sorted(l) && multiset(k) == multiset(l)
    ensures k == l
    decreases |k|
  {
    assert |k| == |multiset(k)| == |multiset(l)| == |l|;
    if k != [] {
      SameFirst(k, l);
      SameFirst(l, k);
      TailElements(k);
      TailElements(l);
      SortedUnique(k[1..], l[1..]);
    }
  }

  lemma SameElements(k: seq<int>, l: seq<int>)
    requires multiset(k) == multiset(l)
    ensures |k| == |l| && forall x :: x in k <==> x in l
  {
    assert |k| == |multiset(k)|;
    assert forall x :: x in k <==> x in multiset(k);
  }

  /** The least of the accepting numbers collected, as snstods looks for it. */
  ghost predicate LeastOf(acc: seq<int>, v: int) {
    if acc == [] then v == 0 else v in acc && forall i :: 0 <= i < |acc| ==> v <= acc[i]
  }

  /** The accepting numbers collected are those of the listed states. */
  ghost predicate AcceptsOf(a: Nfa, l: seq<int>, acc: seq<int>)
    requires WellFormed(a) && StateList(a, l)
  {
    forall v :: v in acc <==> v != 0 && exists x :: x in l && a.accptnum[x] == v
  }

  lemma LeastAcceptOf(a: Nfa, l: seq<int>, acc: seq<int>, v: int)
    requires WellFormed(a) && StateList(a, l) && AcceptsOf(a, l, acc) && LeastOf(acc, v)
    ensures LeastAccept(a, SetOf(l), v)
  {
    forall x | x in l && a.accptnum[x] != 0 ensures a.accptnum[x] in acc && v != 0 && v <= a.accptnum[x] {
      assert a.accptnum[x] in acc;
    }
    if v != 0 {
      assert v in acc;
    }
  }

  /** The DFA states are numbered from 1; entry 0 is not used. */
  ghost predicate Table(a: Nfa, dss: seq<seq<int>>, dhash: seq<int>, dfaacc: seq<int>)
    requires WellFormed(a)
  {
    && |dss| == |dhash| == |dfaacc| >= 1
    && (forall d :: 1 <= d < |dss| ==> Entry(a, dss[d], dhash[d], dfaacc[d]))
    && forall c, d :: 1 <= c < d < |dss| ==> dss[c] != dss[d]
  }

  ghost predicate Entry(a: Nfa, l: seq<int>, hash: int, acc: int)
    requires WellFormed(a)
  {
    Sorted(l) && StateList(a, l) && hash == SumIn(l, |a.transchar|) && LeastAccept(a, SetOf(l), acc)
  }

  class Dfa {
    const nfa: Nfa
    var dss: seq<seq<int>>
    var dhash: seq<int>
    var dfaacc: seq<int>

    constructor (a: Nfa)
      requires WellFormed(a)
      ensures nfa == a && Valid() && dss == [[]]
    {
      nfa := a;
      dss, dhash, dfaacc := [[]], [0], [0];
    }

    ghost predicate Valid()
      reads this
    {
      WellFormed(nfa) && Table(nfa, dss, dhash, dfaacc)
    }

    /** snstods: the number of the DFA state with this list, which is created if there is none yet. The hash and
        the length are compared first; an equal sorted list is never missed. */
    method Snstods(sns: seq<int>, acc: seq<int>, hash: int) returns (isNew: bool, newds: nat)
      requires Valid() && StateList(nfa, sns) && hash == SumIn(sns, |nfa.transchar|) && AcceptsOf(nfa, sns, acc)
      requires forall i :: 0 <= i < |acc| ==> acc[i] <= nfa.numRules
      modifies this
      ensures Valid() && 1 <= newds < |dss|
      ensures Sorted(dss[newds]) && multiset(dss[newds]) == multiset(sns)
      ensures if isNew then |dss| == |old(dss)| + 1 && dss[..|old(dss)|] == old(dss) && newds == |old(dss)|
                            && dfaacc[..|old(dss)|] == old(dfaacc)
              else dss == old(dss) && dfaacc == old(dfaacc)
      ensures isNew <==> forall d :: 1 <= d < |old(dss)| ==> multiset(old(dss)[d]) != multiset(sns)
    {
      hide StateList, AcceptsOf, LeastOf, LeastAccept;
      var v := sns;
      var didsort := false;
      var i := 1;
      while i < |dss|
        invariant 1 <= i <= |dss| && multiset(v) == multiset(sns)
        invariant dss == old(dss) && dhash == old(dhash) && dfaacc == old(dfaacc)
        invariant didsort ==> Sorted(v)
        invariant forall d :: 1 <= d < i ==> multiset(dss[d]) != multiset(sns)
      {
        NeverMissed(nfa, dss[i], dhash[i], dfaacc[i], sns, hash);
        if hash == dhash[i] && |sns| == |dss[i]| {
          if !didsort {
            v := Bubble(v);
            didsort := true;
          }
          if multiset(dss[i]) == multiset(sns) { SortedUnique(dss[i], v); }
          if v == dss[i] {
            return false, i;
          }
        }
        i := i + 1;
      }
      if !didsort {
        v := Bubble(v);
      }
      var best := LeastAccepting(acc);
      NewEntry(nfa, sns, v, acc, best, hash);
      dss, dhash, dfaacc := dss + [v], dhash + [hash], dfaacc + [best];
      isNew, newds := true, |dss| - 1;
    }

    /** The search for the lowest accepting number, from one above the last rule down. */
    method LeastAccepting(acc: seq<int>) returns (j: int)
      requires forall i :: 0 <= i < |acc| ==> acc[i] <= nfa.numRules
      ensures LeastOf(acc, j)
    {
      if |acc| == 0 {
        return 0;
      }
      j := nfa.numRules + 1;
      var i := 0;
      while i < |acc|
        invariant i <= |acc|
        invariant if i == 0 then j == nfa.numRules + 1 else j in acc
        invariant forall k :: 0 <= k < i ==> j <= acc[k]
      {
        if acc[i] < j {
          j := acc[i];
        }
        i := i + 1;
      }
    }
  }

  /** An entry with the same elements passes the comparison of hashes and lengths. */
  lemma NeverMissed(a: Nfa, l: seq<int>, hash: int, acc: int, sns: seq<int>, h: int)
    requires WellFormed(a) && Entry(a, l, hash, acc) && h == SumIn(sns, |a.transchar|)
    ensures multiset(l) == multiset(sns) ==> h == hash && |sns| == |l|
  {
    if multiset(l) == multiset(sns) {
      SameElements(l, sns);
      SumSame(l, sns, |a.transchar|);
    }
  }

  lemma NewEntry(a: Nfa, sns: seq<int>, v: seq<int>, acc: seq<int>, best: int, hash: int)
    requires WellFormed(a) && StateList(a, sns) && AcceptsOf(a, sns, acc) && LeastOf(acc, best)
    requires Sorted(v) && multiset(v) == multiset(sns) && hash == SumIn(sns, |a.transchar|)
    ensures Entry(a, v, hash, best)
  {
    SameElements(v, sns);
    SumSame(v, sns, |a.transchar|);
    forall i | 0 <= i < |v| ensures IsState(a, v[i]) {
      assert v[i] in sns;
    }
    LeastAcceptOf(a, v, acc, best);
  }
}
