/** Equivalence classes of characters (setup/setup-flex/ecs.c). */
module Ecs {
  import opened Chains

  function Abs(x: int): nat { if x < 0 then -x else x }

  /** The partition `old` refined by a set of members. */
  ghost predicate Refines(bck: seq<int>, was: seq<int>, n: nat, s: set<int>) {
    forall i, j :: 1 <= i <= n && 1 <= j <= n ==>
      (Together(bck, i, j) <==> Together(was, i, j) && (i in s <==> j in s))
  }

  ghost function Refined(lab: seq<Label>, s: set<int>): (r: seq<Label>)
    ensures |r| == |lab| && forall k :: 0 <= k < |lab| ==> r[k] == Label(lab[k].chain, k in s)
  {
    seq(|lab|, k requires 0 <= k < |lab| => Label(lab[k].chain, k in s))
  }

  lemma HoldsRefines(fwd: seq<int>, bck: seq<int>, was: seq<int>, n: nat, s: set<int>)
    requires Holds(fwd, bck, Refined(Heads(was, n), s))
    ensures Linked(fwd, bck, n) && Refines(bck, was, n, s)
  {
    var lab := Refined(Heads(was, n), s);
    HeldLinked(fwd, bck, lab);
    forall i, j | 1 <= i <= n && 1 <= j <= n
      ensures Together(bck, i, j) <==> Together(was, i, j) && (i in s <==> j in s)
    {
      TogetherIffLabel(fwd, bck, lab, i, j);
    }
  }

  /** mkechar: tch gets a chain of its own. */
  method MkEChar(tch: int, fwd: array<int>, bck: array<int>, ghost n: nat)
    requires Linked(fwd[..], bck[..], n) && fwd != bck && 1 <= tch <= n
    modifies fwd, bck
    ensures Linked(fwd[..], bck[..], n) && Refines(bck[..], old(bck[..]), n, {tch})
  {
    ghost var f0, b0 := fwd[..], bck[..];
    LinkedHolds(f0, b0, n);
    if fwd[tch] != NIL {
      bck[fwd[tch]] := bck[tch];
    }
    if bck[tch] != NIL {
      fwd[bck[tch]] := fwd[tch];
    }
    fwd[tch] := NIL;
    bck[tch] := NIL;
    SingletonHolds(f0, b0, fwd[..], bck[..], n, tch);
    HoldsRefines(fwd[..], bck[..], b0, n, {tch});
  }

  lemma SingletonHolds(f0: seq<int>, b0: seq<int>, f: seq<int>, b: seq<int>, n: nat, t: int)
    requires Holds(f0, b0, Heads(b0, n)) && 1 <= t <= n && |f| == |f0| && |b| == |b0|
    requires forall i :: 0 <= i < |b| ==> b[i] == if i == t then NIL else if i == f0[t] && i != NIL then b0[t] else b0[i]
    requires forall i :: 0 <= i < |f| ==> f[i] == if i == t then NIL else if i == b0[t] && i != NIL then f0[t] else f0[i]
    ensures Holds(f, b, Refined(Heads(b0, n), {t}))
  {
    var lab0 := Heads(b0, n);
    var lab := Refined(lab0, {t});
    hide Heads;
    assert IsPrev(lab0, t, b0[t]) && IsNext(lab0, t, f0[t]);
    forall i | 1 <= i <= n ensures IsPrev(lab, i, b[i]) && IsNext(lab, i, f[i]) {
      assert IsPrev(lab0, i, b0[i]) && IsNext(lab0, i, f0[i]);
    }
  }

  // ----- mkeccl -----

  /** The members of a class as mkeccl reads them: NUL stands for NUL_mapping. */
  function Mapped(ccls: seq<int>, nul: int): (m: seq<int>)
    ensures |m| == |ccls| && forall j :: 0 <= j < |ccls| ==> m[j] == if nul != 0 && ccls[j] == 0 then nul else ccls[j]
  {
    seq(|ccls|, j requires 0 <= j < |ccls| => if nul != 0 && ccls[j] == 0 then nul else ccls[j])
  }

  ghost predicate Ascending(m: seq<int>, n: nat) {
    && (forall j :: 0 <= j < |m| ==> 1 <= m[j] <= n)
    && forall j, k :: 0 <= j < k < |m| ==> m[j] < m[k]
  }

  ghost function Members(m: seq<int>): (r: set<int>)
    ensures forall c :: c in r <==> c in m
  {
    set c | c in m
  }

  /** Labels with the chains of p already refined by s. */
  ghost function Mixed(lab: seq<Label>, p: set<int>, s: set<int>): (r: seq<Label>)
    ensures |r| == |lab|
    ensures forall k :: 0 <= k < |lab| ==> r[k] == Label(lab[k].chain, lab[k].chain in p && k in s)
  {
    seq(|lab|, k requires 0 <= k < |lab| => Label(lab[k].chain, lab[k].chain in p && k in s))
  }

  /** Where the members already seen stop. */
  function Bound(lab: seq<Label>, i: int): int {
    if i == NIL then |lab| else i
  }

  /** The chain of label l is being split. i is the next member to look at, NIL at the end; newec and oldec are
      the last members seen inside and outside the class. */
  ghost predicate Splitting(f: seq<int>, b: seq<int>, lab: seq<Label>, s: set<int>,
                            l: int, first: int, last: int, newec: int, oldec: int, i: int)
  {
    && |f| >= |lab| && |b| >= |lab| && 0 <= i < |lab|
    && SeenMembers(lab, s, l, first, last, newec, oldec, i)
    && SeenLinks(f, b, lab, Refined(lab, s), l, first, last, newec, oldec, Bound(lab, i))
    && (forall k :: Bound(lab, i) <= k < |lab| && lab[k].chain == l ==> IsNext(lab, k, f[k]))
  }

  ghost predicate SeenMembers(lab: seq<Label>, s: set<int>, l: int, first: int, last: int, newec: int, oldec: int, i: int)
    requires 0 <= i < |lab|
  {
    var e := Bound(lab, i);
    && 1 <= first <= newec < e && 0 <= last <= oldec < e && last < first
    && lab[first].chain == l && lab[newec].chain == l && first in s && newec in s
    && (oldec != NIL ==> lab[oldec].chain == l && oldec !in s)
    && (i != NIL ==> lab[i].chain == l)
    && (forall k :: 1 <= k < first && lab[k].chain == l ==> k !in s)
    && (forall k :: newec < k < e && lab[k].chain == l ==> k !in s)
    && (forall k :: oldec < k < e && 1 <= k && lab[k].chain == l ==> k in s)
  }

  ghost predicate SeenLinks(f: seq<int>, b: seq<int>, lab: seq<Label>, ref: seq<Label>,
                            l: int, first: int, last: int, newec: int, oldec: int, e: int)
    requires |f| >= |lab| == |ref| && |b| >= |lab| && e <= |lab|
  {
    && (1 <= first < |lab| ==> b[first] == last)
    && (forall k :: 1 <= k < e && lab[k].chain == l && k != first ==> IsPrev(ref, k, b[k]))
    && (forall k :: 1 <= k < e && lab[k].chain == l && k != newec && k != oldec ==> IsNext(ref, k, f[k]))
  }

  /** The other chains are left alone. */
  ghost predicate OthersHold(f: seq<int>, b: seq<int>, lab: seq<Label>, mix: seq<Label>, l: int)
    requires |mix| == |lab|
  {
    && |f| >= |lab| && |b| >= |lab|
    && forall k :: 1 <= k < |lab| && lab[k].chain != l ==> IsPrev(mix, k, b[k]) && IsNext(mix, k, f[k])
  }

  /** All labels are (chain, false). */
  ghost predicate Plain(lab: seq<Label>) {
    forall k :: 0 <= k < |lab| ==> !lab[k].inside
  }

  /** On a chain not yet refined the mixed labels say no more than the chain. */
  lemma UnrefinedLinks(lab: seq<Label>, p: set<int>, s: set<int>, k: int, x: int)
    requires Plain(lab) && 1 <= k < |lab| && lab[k].chain !in p
    ensures IsPrev(Mixed(lab, p, s), k, x) <==> IsPrev(lab, k, x)
    ensures IsNext(Mixed(lab, p, s), k, x) <==> IsNext(lab, k, x)
  {
    assert forall j :: 0 <= j < |lab| ==> (Mixed(lab, p, s)[j] == Mixed(lab, p, s)[k] <==> lab[j] == lab[k]);
  }

  lemma SplitStarts(f: seq<int>, b: seq<int>, lab: seq<Label>, p: set<int>, s: set<int>, first: int)
    requires Holds(f, b, Mixed(lab, p, s)) && Plain(lab) && 1 <= first < |lab|
    requires first in s && lab[first].chain !in p
    requires forall k :: 1 <= k < first && lab[k].chain == lab[first].chain ==> k !in s
    ensures Splitting(f, b, lab, s, lab[first].chain, first, b[first], first, b[first], f[first])
    ensures OthersHold(f, b, lab, Mixed(lab, p, s), lab[first].chain)
  {
    var mix, ref := Mixed(lab, p, s), Refined(lab, s);
    var l := lab[first].chain;
    forall k | 1 <= k < |lab| && lab[k].chain == l ensures IsPrev(lab, k, b[k]) && IsNext(lab, k, f[k]) {
      assert IsPrev(mix, k, b[k]) && IsNext(mix, k, f[k]);
      UnrefinedLinks(lab, p, s, k, b[k]);
      UnrefinedLinks(lab, p, s, k, f[k]);
    }
    StartsOutside(f, b, lab, s, l, first);
  }

  /** In front of the first member inside, the chain is already right. */
  lemma StartsOutside(f: seq<int>, b: seq<int>, lab: seq<Label>, s: set<int>, l: int, first: int)
    requires Plain(lab) && 1 <= first < |lab| && |f| >= |lab| && |b| >= |lab| && lab[first].chain == l && first in s
    requires forall k :: 1 <= k < |lab| && lab[k].chain == l ==> IsPrev(lab, k, b[k]) && IsNext(lab, k, f[k])
    requires forall k :: 1 <= k < first && lab[k].chain == l ==> k !in s
    ensures Splitting(f, b, lab, s, l, first, b[first], first, b[first], f[first])
  {
    assert IsPrev(lab, first, b[first]) && IsNext(lab, first, f[first]);
    var e := Bound(lab, f[first]);
    forall k | 1 <= k < e && lab[k].chain == l ensures k <= b[first] || k == first {}
    StartLinks(f, b, lab, s, l, first, e);
    hide IsPrev, SeenLinks;
    assert SeenMembers(lab, s, l, first, b[first], first, b[first], f[first]);
  }

  lemma StartLinks(f: seq<int>, b: seq<int>, lab: seq<Label>, s: set<int>, l: int, first: int, e: int)
    requires Plain(lab) && 1 <= first < e <= |lab| && |f| >= |lab| && |b| >= |lab| && lab[first].chain == l && first in s
    requires forall k :: 1 <= k < |lab| && lab[k].chain == l ==> IsPrev(lab, k, b[k]) && IsNext(lab, k, f[k])
    requires forall k :: 1 <= k < first && lab[k].chain == l ==> k !in s
    requires forall k :: 1 <= k < e && lab[k].chain == l ==> k <= b[first] || k == first
    ensures SeenLinks(f, b, lab, Refined(lab, s), l, first, b[first], first, b[first], e)
  {
    var ref := Refined(lab, s);
    assert IsPrev(lab, first, b[first]);
    forall k | 1 <= k < e && lab[k].chain == l && k != first ensures IsPrev(ref, k, b[k]) {
      assert IsPrev(lab, k, b[k]);
    }
    forall k | 1 <= k < e && lab[k].chain == l && k != first && k != b[first] ensures IsNext(ref, k, f[k]) {
      assert IsNext(lab, k, f[k]);
    }
  }

  /** A member outside the class is linked behind the last one outside. */
  lemma SplitOut(f: seq<int>, b: seq<int>, lab: seq<Label>, s: set<int>, l: int, first: int, last: int, newec: int, oldec: int, i: int)
    requires Splitting(f, b, lab, s, l, first, last, newec, oldec, i) && i != NIL && i !in s && Plain(lab)
    ensures Splitting(if oldec != NIL then f[oldec := i] else f, b[i := oldec], lab, s, l, first, last, newec, i, f[i])
  {
    var f1, b1 := if oldec != NIL then f[oldec := i] else f, b[i := oldec];
    assert IsNext(lab, i, f[i]);
    OutLinks(f, b, lab, s, l, first, last, newec, oldec, i);
    hide IsPrev, SeenLinks;
    assert SeenMembers(lab, s, l, first, last, newec, i, f[i]);
  }

  lemma OutLinks(f: seq<int>, b: seq<int>, lab: seq<Label>, s: set<int>, l: int, first: int, last: int, newec: int, oldec: int, i: int)
    requires Splitting(f, b, lab, s, l, first, last, newec, oldec, i) && i != NIL && i !in s && IsNext(lab, i, f[i]) && Plain(lab)
    ensures SeenLinks(if oldec != NIL then f[oldec := i] else f, b[i := oldec], lab, Refined(lab, s), l, first, last, newec, i, Bound(lab, f[i]))
  {
    var f1, b1 := if oldec != NIL then f[oldec := i] else f, b[i := oldec];
    var ref := Refined(lab, s);
    assert IsPrev(ref, i, b1[i]);
    assert oldec != NIL ==> IsNext(ref, oldec, f1[oldec]);
    forall k | 1 <= k < Bound(lab, f[i]) && lab[k].chain == l && k != first
      ensures IsPrev(ref, k, b1[k]) && (k != newec && k != i ==> IsNext(ref, k, f1[k]))
    {
      assert k <= i;
    }
  }

  /** A member inside is linked behind the last one inside. */
  lemma SplitIn(f: seq<int>, b: seq<int>, lab: seq<Label>, s: set<int>, l: int, first: int, last: int, newec: int, oldec: int, i: int)
    requires Splitting(f, b, lab, s, l, first, last, newec, oldec, i) && i != NIL && i in s && Plain(lab)
    ensures Splitting(f[newec := i], b[i := newec], lab, s, l, first, last, i, oldec, f[i])
  {
    assert IsNext(lab, i, f[i]);
    InLinks(f, b, lab, s, l, first, last, newec, oldec, i);
    hide IsPrev, SeenLinks;
    assert SeenMembers(lab, s, l, first, last, i, oldec, f[i]);
  }

  lemma InLinks(f: seq<int>, b: seq<int>, lab: seq<Label>, s: set<int>, l: int, first: int, last: int, newec: int, oldec: int, i: int)
    requires Splitting(f, b, lab, s, l, first, last, newec, oldec, i) && i != NIL && i in s && IsNext(lab, i, f[i]) && Plain(lab)
    ensures SeenLinks(f[newec := i], b[i := newec], lab, Refined(lab, s), l, first, last, i, oldec, Bound(lab, f[i]))
  {
    var f1, b1 := f[newec := i], b[i := newec];
    var ref := Refined(lab, s);
    assert IsPrev(ref, i, b1[i]) && IsNext(ref, newec, f1[newec]);
    forall k | 1 <= k < Bound(lab, f[i]) && lab[k].chain == l && k != first
      ensures IsPrev(ref, k, b1[k])
    {
      assert k <= i;
    }
    forall k | 1 <= k < Bound(lab, f[i]) && lab[k].chain == l && k != i && k != oldec
      ensures IsNext(ref, k, f1[k])
    {
      assert k <= i;
    }
  }

  lemma PlainPrev(lab: seq<Label>, p: set<int>, s: set<int>, l: int, k: int, x: int)
    requires Plain(lab) && 1 <= k < |lab|
    ensures lab[k].chain == l ==> (IsPrev(Mixed(lab, p + {l}, s), k, x) <==> IsPrev(Refined(lab, s), k, x))
    ensures lab[k].chain == l ==> (IsNext(Mixed(lab, p + {l}, s), k, x) <==> IsNext(Refined(lab, s), k, x))
    ensures lab[k].chain != l ==> (IsPrev(Mixed(lab, p + {l}, s), k, x) <==> IsPrev(Mixed(lab, p, s), k, x))
    ensures lab[k].chain != l ==> (IsNext(Mixed(lab, p + {l}, s), k, x) <==> IsNext(Mixed(lab, p, s), k, x))
  {
    var one, two := Mixed(lab, p + {l}, s), if lab[k].chain == l then Refined(lab, s) else Mixed(lab, p, s);
    assert forall j :: 0 <= j < |lab| ==> (one[j] == one[k] <==> two[j] == two[k]);
  }

  /** At the end of the chain both parts are closed. */
  lemma SplitEnds(f: seq<int>, b: seq<int>, lab: seq<Label>, p: set<int>, s: set<int>, l: int, first: int, last: int, newec: int, oldec: int)
    requires Splitting(f, b, lab, s, l, first, last, newec, oldec, NIL) && Plain(lab)
    requires OthersHold(f, b, lab, Mixed(lab, p, s), l)
    ensures var f1 := (if oldec != NIL then f[oldec := NIL] else f)[newec := NIL];
            Holds(f1, b[first := NIL], Mixed(lab, p + {l}, s))
  {
    var f1, b1 := (if oldec != NIL then f[oldec := NIL] else f)[newec := NIL], b[first := NIL];
    var ref, mix, mix1 := Refined(lab, s), Mixed(lab, p, s), Mixed(lab, p + {l}, s);
    ClosedIn(f, b, lab, s, l, first, last, newec, oldec);
    forall k | 1 <= k < |lab| ensures IsPrev(mix1, k, b1[k]) && IsNext(mix1, k, f1[k]) {
      PlainPrev(lab, p, s, l, k, b1[k]);
      PlainPrev(lab, p, s, l, k, f1[k]);
      if lab[k].chain != l {
        assert IsPrev(mix, k, b[k]) && IsNext(mix, k, f[k]);
      }
    }
  }

  lemma ClosedIn(f: seq<int>, b: seq<int>, lab: seq<Label>, s: set<int>, l: int, first: int, last: int, newec: int, oldec: int)
    requires Splitting(f, b, lab, s, l, first, last, newec, oldec, NIL)
    ensures var f1, b1 := (if oldec != NIL then f[oldec := NIL] else f)[newec := NIL], b[first := NIL];
            var ref := Refined(lab, s);
            forall k :: 1 <= k < |lab| && lab[k].chain == l ==> IsPrev(ref, k, b1[k]) && IsNext(ref, k, f1[k])
  {
    var f1, b1 := (if oldec != NIL then f[oldec := NIL] else f)[newec := NIL], b[first := NIL];
    var ref := Refined(lab, s);
    forall k | 1 <= k < |lab| && lab[k].chain == l ensures IsPrev(ref, k, b1[k]) && IsNext(ref, k, f1[k]) {
      if k == first {
        FirstInside(f, b, lab, s, l, first, last, newec, oldec);
      } else {
        assert IsPrev(ref, k, b[k]);
      }
    }
  }

  /** The first member inside has no predecessor. */
  lemma FirstInside(f: seq<int>, b: seq<int>, lab: seq<Label>, s: set<int>, l: int, first: int, last: int, newec: int, oldec: int)
    requires Splitting(f, b, lab, s, l, first, last, newec, oldec, NIL)
    ensures IsPrev(Refined(lab, s), first, NIL)
  {
    assert forall k :: 1 <= k < first && lab[k].chain == l ==> k !in s;
  }

  /** Which entries are flagged: those behind `at` whose chain is done, or is being split and already seen. */
  ghost predicate Flagged(flags: seq<bool>, m: seq<int>, lab: seq<Label>, p: set<int>, l: int, at: int, e: int) {
    && |flags| >= |m| && (forall t :: 0 <= t < |m| ==> 1 <= m[t] < |lab|)
    && (forall t :: 0 <= t < |flags| && (t <= at || t >= |m|) ==> !flags[t])
    && forall t :: 0 <= t < |m| && t > at ==> (flags[t] <==> lab[m[t]].chain in p || (lab[m[t]].chain == l && m[t] < e))
  }

  /** The search loop: is i among the members from j on? */
  method FindMember(m: seq<int>, flags: array<bool>, i: int, from: nat, ghost n: nat) returns (j: nat, found: bool)
    requires Ascending(m, n) && from <= |m| && flags.Length >= |m|
    requires forall t :: 0 <= t < from ==> m[t] < i
    requires forall t :: 0 <= t < |m| && m[t] == i ==> !flags[t]
    ensures from <= j <= |m| && (found <==> i in m)
    ensures forall t :: 0 <= t < j ==> m[t] < i
    ensures found ==> j < |m| && m[j] == i
  {
    j, found := from, false;
    while j < |m|
      invariant from <= j <= |m| && !found
      invariant forall t :: 0 <= t < j ==> m[t] < i
    {
      if m[j] > i {
        forall t | 0 <= t < |m| ensures m[t] != i {}
        return;
      }
      if m[j] == i && !flags[j] {
        found := true;
        return;
      }
      j := j + 1;
    }
    forall t | 0 <= t < |m| ensures m[t] != i {}
  }

  /** The invariant of the walk along one chain. */
  ghost predicate Walking(f: seq<int>, b: seq<int>, flags: seq<bool>, m: seq<int>, lab: seq<Label>, p: set<int>,
                          l: int, first: int, last: int, newec: int, oldec: int, at: nat, j: nat, i: int)
  {
    && |lab| >= 1 && Plain(lab) && Ascending(m, |lab| - 1) && l !in p
    && Splitting(f, b, lab, Members(m), l, first, last, newec, oldec, i)
    && OthersHold(f, b, lab, Mixed(lab, p, Members(m)), l)
    && at < j <= |m| && (i != NIL ==> forall t :: 0 <= t < j ==> m[t] < i)
    && Flagged(flags, m, lab, p, l, at, Bound(lab, i))
  }

  lemma WalkLooks(f: seq<int>, b: seq<int>, flags: seq<bool>, m: seq<int>, lab: seq<Label>, p: set<int>,
                  l: int, first: int, last: int, newec: int, oldec: int, at: nat, j: nat, i: int)
    requires Walking(f, b, flags, m, lab, p, l, first, last, newec, oldec, at, j, i) && i != NIL
    ensures 1 <= i < |lab| && |f| >= |lab| && |b| >= |lab| && |flags| >= |m| && j <= |m|
    ensures 1 <= newec < i && 0 <= oldec < i && Ascending(m, |lab| - 1)
    ensures forall t :: 0 <= t < j ==> m[t] < i
    ensures forall t :: 0 <= t < |m| && m[t] == i ==> !flags[t]
    ensures f[i] == NIL || i < f[i] < |lab|
  {
    assert IsNext(lab, i, f[i]);
  }

  lemma OthersStay(f: seq<int>, b: seq<int>, lab: seq<Label>, mix: seq<Label>, l: int, x: int, u: int, y: int, v: int)
    requires |mix| == |lab| && OthersHold(f, b, lab, mix, l)
    requires 1 <= x < |lab| && lab[x].chain == l && 1 <= y < |lab| && lab[y].chain == l
    ensures OthersHold(f[x := u], b[y := v], lab, mix, l) && OthersHold(f, b[y := v], lab, mix, l)
  {
  }

  /** The next bound: nothing of the chain lies between i and the member behind it. */
  lemma FlagsMove(flags: seq<bool>, m: seq<int>, lab: seq<Label>, p: set<int>, l: int, at: nat, i: int, q: int)
    requires Plain(lab) && Flagged(flags, m, lab, p, l, at, i) && 1 <= i < |lab| && lab[i].chain == l && IsNext(lab, i, q) && i !in m
    ensures Flagged(flags, m, lab, p, l, at, Bound(lab, q))
  {
  }

  lemma FlagsMoveIn(flags: seq<bool>, m: seq<int>, lab: seq<Label>, p: set<int>, l: int, at: nat, i: int, q: int, j: nat)
    requires Plain(lab) && Flagged(flags, m, lab, p, l, at, i) && 1 <= i < |lab| && lab[i].chain == l && IsNext(lab, i, q)
    requires Ascending(m, |lab| - 1) && at < j < |m| && m[j] == i
    ensures Flagged(flags[j := true], m, lab, p, l, at, Bound(lab, q))
  {
    assert forall t :: 0 <= t < |m| && m[t] == i ==> t == j;
  }

  lemma WalkIn(f: seq<int>, b: seq<int>, flags: seq<bool>, m: seq<int>, lab: seq<Label>, p: set<int>,
               l: int, first: int, last: int, newec: int, oldec: int, at: nat, j: nat, i: int, j1: nat)
    requires Walking(f, b, flags, m, lab, p, l, first, last, newec, oldec, at, j, i) && i != NIL
    requires j <= j1 < |m| && m[j1] == i
    ensures Walking(f[newec := i], b[i := newec], flags[j1 := true], m, lab, p, l, first, last, i, oldec, at, j1, f[i])
  {
    assert IsNext(lab, i, f[i]);
    SplitIn(f, b, lab, Members(m), l, first, last, newec, oldec, i);
    OthersStay(f, b, lab, Mixed(lab, p, Members(m)), l, newec, i, i, newec);
    FlagsMoveIn(flags, m, lab, p, l, at, i, f[i], j1);
  }

  lemma WalkOut(f: seq<int>, b: seq<int>, flags: seq<bool>, m: seq<int>, lab: seq<Label>, p: set<int>,
                l: int, first: int, last: int, newec: int, oldec: int, at: nat, j: nat, i: int, j1: nat)
    requires Walking(f, b, flags, m, lab, p, l, first, last, newec, oldec, at, j, i) && i != NIL
    requires j <= j1 <= |m| && i !in m && forall t :: 0 <= t < j1 ==> m[t] < i
    ensures Walking(if oldec != NIL then f[oldec := i] else f, b[i := oldec], flags, m, lab, p, l, first, last, newec, i, at, j1, f[i])
  {
    assert IsNext(lab, i, f[i]);
    SplitOut(f, b, lab, Members(m), l, first, last, newec, oldec, i);
    OthersStay(f, b, lab, Mixed(lab, p, Members(m)), l, if oldec != NIL then oldec else i, i, i, oldec);
    FlagsMove(flags, m, lab, p, l, at, i, f[i]);
  }

  /** The first member met on a chain is the chain's first member inside. */
  lemma FirstMet(m: seq<int>, lab: seq<Label>, p: set<int>, at: nat, k: int)
    requires |lab| >= 1 && Ascending(m, |lab| - 1) && at < |m| && 1 <= k < m[at]
    requires lab[m[at]].chain !in p && forall t :: 0 <= t < at ==> lab[m[t]].chain in p
    requires lab[k].chain == lab[m[at]].chain
    ensures k !in m
  {
    assert forall t :: 0 <= t < |m| && m[t] < m[at] ==> t < at && lab[m[t]].chain in p;
  }

  lemma WalkStarts(f: seq<int>, b: seq<int>, flags: seq<bool>, m: seq<int>, lab: seq<Label>, p: set<int>, at: nat)
    requires |lab| >= 1 && Plain(lab) && Ascending(m, |lab| - 1) && at < |m|
    requires Holds(f, b, Mixed(lab, p, Members(m)))
    requires lab[m[at]].chain !in p && forall t :: 0 <= t < at ==> lab[m[t]].chain in p
    requires Flagged(flags, m, lab, p, lab[m[at]].chain, at, m[at])
    ensures Walking(f, b, flags, m, lab, p, lab[m[at]].chain, m[at], b[m[at]], m[at], b[m[at]], at, at + 1, f[m[at]])
  {
    var c := m[at];
    forall k | 1 <= k < c && lab[k].chain == lab[c].chain ensures k !in Members(m) {
      FirstMet(m, lab, p, at, k);
    }
    FirstNext(f, b, m, lab, p, c);
    SplitStarts(f, b, lab, p, Members(m), c);
    hide Holds, Splitting, OthersHold;
    FlagsStart(flags, m, lab, p, lab[c].chain, at, f[c]);
  }

  lemma FirstNext(f: seq<int>, b: seq<int>, m: seq<int>, lab: seq<Label>, p: set<int>, c: int)
    requires Holds(f, b, Mixed(lab, p, Members(m))) && Plain(lab) && 1 <= c < |lab| && lab[c].chain !in p
    ensures IsNext(lab, c, f[c])
  {
    UnrefinedLinks(lab, p, Members(m), c, f[c]);
  }

  lemma FlagsStart(flags: seq<bool>, m: seq<int>, lab: seq<Label>, p: set<int>, l: int, at: nat, q: int)
    requires |lab| >= 1 && Plain(lab) && Ascending(m, |lab| - 1) && at < |m| && lab[m[at]].chain == l
    requires Flagged(flags, m, lab, p, l, at, m[at]) && IsNext(lab, m[at], q)
    ensures Flagged(flags, m, lab, p, l, at, Bound(lab, q))
    ensures q != NIL ==> forall t :: 0 <= t < at + 1 ==> m[t] < q
  {
  }

  lemma WalkEnds(f: seq<int>, b: seq<int>, flags: seq<bool>, m: seq<int>, lab: seq<Label>, p: set<int>,
                 l: int, first: int, last: int, newec: int, oldec: int, at: nat, j: nat)
    requires Walking(f, b, flags, m, lab, p, l, first, last, newec, oldec, at, j, NIL)
    ensures 1 <= first < |lab| <= |f| && |lab| <= |b| && b[first] == last && 0 <= last <= oldec < |lab| && 1 <= newec < |lab|
    ensures Holds((if oldec != NIL then f[oldec := NIL] else f)[newec := NIL], b[first := NIL], Mixed(lab, p + {l}, Members(m)))
    ensures Flagged(flags, m, lab, p + {l}, l, at, first)
  {
    SplitEnds(f, b, lab, p, Members(m), l, first, last, newec, oldec);
  }

  /** Member i is linked behind prev, if there is one. */
  method Link(fwd: array<int>, bck: array<int>, i: int, prev: int)
    requires fwd != bck && 1 <= i < bck.Length && 0 <= prev < fwd.Length
    modifies fwd, bck
    ensures bck[..] == old(bck[..])[i := prev]
    ensures fwd[..] == if prev != NIL then old(fwd[..])[prev := i] else old(fwd[..])
  {
    bck[i] := prev;
    if prev != NIL {
      fwd[prev] := i;
    }
  }

  /** Both parts of a split chain are closed. */
  method Close(fwd: array<int>, bck: array<int>, cclm: int, oldec: int, newec: int)
    requires fwd != bck && 1 <= cclm < bck.Length && 0 <= bck[cclm] <= oldec < fwd.Length && 1 <= newec < fwd.Length
    modifies fwd, bck
    ensures bck[..] == old(bck[..])[cclm := NIL]
    ensures fwd[..] == (if oldec != NIL then old(fwd[..])[oldec := NIL] else old(fwd[..]))[newec := NIL]
  {
    if bck[cclm] != NIL || oldec != bck[cclm] {
      bck[cclm] := NIL;
      fwd[oldec] := NIL;
    }
    fwd[newec] := NIL;
  }

  /** One turn of the inner loop: i goes to the part of its chain inside the class or to the part outside. */
  method SortOne(m: seq<int>, at: nat, fwd: array<int>, bck: array<int>, flags: array<bool>, i: int,
                 newec0: int, oldec0: int, from: nat,
                 ghost lab: seq<Label>, ghost p: set<int>, ghost l: int, ghost cclm: int, ghost last: int)
    returns (newec: int, oldec: int, j: nat, next: int)
    requires fwd != bck && i != NIL && |lab| >= 1
    requires Walking(fwd[..], bck[..], flags[..], m, lab, p, l, cclm, last, newec0, oldec0, at, from, i)
    modifies fwd, bck, flags
    ensures Walking(fwd[..], bck[..], flags[..], m, lab, p, l, cclm, last, newec, oldec, at, j, next)
    ensures next == NIL || i < next < |lab|
  {
    ghost var f, b, fl := fwd[..], bck[..], flags[..];
    WalkLooks(f, b, fl, m, lab, p, l, cclm, last, newec0, oldec0, at, from, i);
    hide Walking, Ascending;
    newec, oldec := newec0, oldec0;
    var found: bool;
    j, found := FindMember(m, flags, i, from, |lab| - 1);
    if found {
      WalkIn(f, b, fl, m, lab, p, l, cclm, last, newec, oldec, at, from, i, j);
      Link(fwd, bck, i, newec);
      newec := i;
      flags[j] := true;
    } else {
      WalkOut(f, b, fl, m, lab, p, l, cclm, last, newec, oldec, at, from, i, j);
      Link(fwd, bck, i, oldec);
      oldec := i;
    }
    next := fwd[i];
  }

  /** One turn of mkeccl's outer loop: the chain of m[at] is split into the members inside and outside m. */
  method SplitChain(m: seq<int>, at: nat, fwd: array<int>, bck: array<int>, flags: array<bool>,
                    ghost lab: seq<Label>, ghost p: set<int>)
    requires |lab| >= 1 && Plain(lab) && Ascending(m, |lab| - 1) && at < |m| && fwd != bck
    requires Holds(fwd[..], bck[..], Mixed(lab, p, Members(m)))
    requires lab[m[at]].chain !in p && forall t :: 0 <= t < at ==> lab[m[t]].chain in p
    requires Flagged(flags[..], m, lab, p, lab[m[at]].chain, at, m[at])
    modifies fwd, bck, flags
    ensures Holds(fwd[..], bck[..], Mixed(lab, p + {lab[m[at]].chain}, Members(m)))
    ensures Flagged(flags[..], m, lab, p + {lab[m[at]].chain}, lab[m[at]].chain, at, m[at])
  {
    WalkStarts(fwd[..], bck[..], flags[..], m, lab, p, at);
    var cclm := m[at];
    ghost var l, last := lab[cclm].chain, bck[cclm];
    var oldec, newec := bck[cclm], cclm;
    var j: nat := at + 1;
    var i := fwd[cclm];
    if i != NIL { WalkLooks(fwd[..], bck[..], flags[..], m, lab, p, l, cclm, last, newec, oldec, at, j, i); }
    hide Walking, Flagged, Holds, Mixed, Ascending, Plain, Members;
    while i != NIL
      invariant Walking(fwd[..], bck[..], flags[..], m, lab, p, l, cclm, last, newec, oldec, at, j, i)
      invariant i == NIL || i < |lab|
      decreases if i == NIL then 0 else |lab| + 1 - i
    {
      newec, oldec, j, i := SortOne(m, at, fwd, bck, flags, i, newec, oldec, j, lab, p, l, cclm, last);
    }
    WalkEnds(fwd[..], bck[..], flags[..], m, lab, p, l, cclm, last, newec, oldec, at, j);
    Close(fwd, bck, cclm, oldec, newec);
  }

  /** Between two turns of the outer loop: the members in front of cclp have had their chains done, and the
      flags behind mark those whose chains are done too. */
  ghost predicate Between(flags: seq<bool>, m: seq<int>, lab: seq<Label>, p: set<int>, cclp: nat) {
    && |flags| >= |m| && cclp <= |m| && (forall t :: 0 <= t < |m| ==> 1 <= m[t] < |lab|)
    && (forall t :: 0 <= t < cclp ==> lab[m[t]].chain in p)
    && (forall t :: 0 <= t < |flags| && (t < cclp || t >= |m|) ==> !flags[t])
    && forall t :: cclp <= t < |m| ==> (flags[t] <==> lab[m[t]].chain in p)
  }

  lemma BetweenFlagged(flags: seq<bool>, m: seq<int>, lab: seq<Label>, p: set<int>, cclp: nat)
    requires Between(flags, m, lab, p, cclp) && cclp < |m| && !flags[cclp] && Ascending(m, |lab| - 1)
    ensures lab[m[cclp]].chain !in p && Flagged(flags, m, lab, p, lab[m[cclp]].chain, cclp, m[cclp])
    ensures forall t :: 0 <= t < cclp ==> lab[m[t]].chain in p
  {
  }

  lemma FlaggedBetween(flags: seq<bool>, m: seq<int>, lab: seq<Label>, p: set<int>, cclp: nat)
    requires |lab| >= 1 && Ascending(m, |lab| - 1) && cclp < |m| && lab[m[cclp]].chain in p
    requires Flagged(flags, m, lab, p, lab[m[cclp]].chain, cclp, m[cclp])
    requires forall t :: 0 <= t < cclp ==> lab[m[t]].chain in p
    ensures Between(flags, m, lab, p, cclp + 1)
  {
  }

  lemma BetweenSkips(flags: seq<bool>, m: seq<int>, lab: seq<Label>, p: set<int>, cclp: nat)
    requires Between(flags, m, lab, p, cclp) && cclp < |m| && flags[cclp]
    ensures Between(flags[cclp := false], m, lab, p, cclp + 1)
  {
  }

  /** The loop that finds the next member to process, clearing the flags it passes. It reads a flag before it tests
      the index; over tells that it read behind the flags. What it found there does not matter for the result. */
  method SkipFlagged(m: seq<int>, from: nat, flags: array<bool>, ghost lab: seq<Label>, ghost p: set<int>)
    returns (cclp: nat, over: bool)
    requires Between(flags[..], m, lab, p, from)
    modifies flags
    ensures Between(flags[..], m, lab, p, cclp) && cclp <= |m| && from <= cclp
    ensures cclp < |m| ==> !flags[cclp]
    ensures forall k :: from <= k < cclp ==> old(flags[k])
    ensures over <==> cclp == |m| == flags.Length
  {
    var beyond: bool := *;
    cclp := from;
    assert from <= |m| <= flags.Length;
    hide Between;
    while (if cclp < flags.Length then flags[cclp] else beyond) && cclp < |m|
      invariant from <= cclp <= |m| <= flags.Length
      invariant forall k :: from <= k < cclp ==> old(flags[k])
      invariant forall k :: cclp <= k < flags.Length ==> flags[k] == old(flags[k])
      invariant Between(flags[..], m, lab, p, cclp)
    {
      BetweenSkips(flags[..], m, lab, p, cclp);
      flags[cclp] := false;
      cclp := cclp + 1;
    }
    over := cclp >= flags.Length;
  }

  /** mkeccl: the partition is refined by the class, and the flags are clear again. One flag behind the array is read
      exactly if the class has as many members as there are flags. */
  method MkEccl(ccls: seq<int>, fwd: array<int>, bck: array<int>, ghost n: nat, nul: int, flags: array<bool>)
    returns (over: bool)
    requires Linked(fwd[..], bck[..], n) && fwd != bck
    requires Ascending(Mapped(ccls, nul), n)
    requires flags.Length >= |ccls| && forall t :: 0 <= t < flags.Length ==> !flags[t]
    modifies fwd, bck, flags
    ensures Linked(fwd[..], bck[..], n) && Refines(bck[..], old(bck[..]), n, Members(Mapped(ccls, nul)))
    ensures forall t :: 0 <= t < flags.Length ==> !flags[t]
    ensures over <==> 0 < |ccls| == flags.Length
  {
    over := false;
    var m := Mapped(ccls, nul);
    ghost var s, lab, p := Members(m), Heads(bck[..], n), {};
    LinkedHolds(fwd[..], bck[..], n);
    assert Mixed(lab, {}, s) == lab;
    assert Between(flags[..], m, lab, p, 0);
    assert Plain(lab);
    var cclp := 0;
    hide Holds, Between, Ascending, Flagged, Plain, Linked, Refines, Mixed, Heads, Members;
    while cclp < |ccls|
      invariant cclp <= |m| == |ccls| <= flags.Length && (over <==> 0 < cclp == |m| == flags.Length)
      invariant Holds(fwd[..], bck[..], Mixed(lab, p, s))
      invariant Between(flags[..], m, lab, p, cclp)
      invariant cclp < |m| ==> !flags[cclp]
    {
      BetweenFlagged(flags[..], m, lab, p, cclp);
      SplitChain(m, cclp, fwd, bck, flags, lab, p);
      p := p + {lab[m[cclp]].chain};
      FlaggedBetween(flags[..], m, lab, p, cclp);
      cclp := cclp + 1;
      cclp, over := SkipFlagged(m, cclp, flags, lab, p);
    }
    AllMixed(fwd[..], bck[..], lab, p, s, flags[..], m);
    HoldsRefines(fwd[..], bck[..], old(bck[..]), n, s);
  }

  /** Once every member's chain is done, the mixed labels are the refined ones, up to chains without members. */
  lemma AllMixed(f: seq<int>, b: seq<int>, lab: seq<Label>, p: set<int>, s: set<int>, flags: seq<bool>, m: seq<int>)
    requires Holds(f, b, Mixed(lab, p, s)) && s == Members(m) && Between(flags, m, lab, p, |m|)
    ensures Holds(f, b, Refined(lab, s))
    ensures forall t :: 0 <= t < |flags| ==> !flags[t]
  {
    assert Mixed(lab, p, s) == Refined(lab, s);
  }
}
