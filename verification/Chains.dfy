/** Partitions of 1..n held as doubly linked ascending chains in two int arrays (setup/setup-flex/ecs.c).
    fwd and bck are the arrays from index 0 on; index 0 is not used, and 0 (NIL) ends a chain. */
module Chains {

  const NIL: int := 0

  /** What tells two members of 1..n apart: the chain they were on, and whether they are inside the class. */
  datatype Label = Label(chain: int, inside: bool)

  /** p is the last index in front of i with i's label, or NIL. */
  ghost predicate IsPrev(lab: seq<Label>, i: int, p: int)
    requires 1 <= i < |lab|
  {
    && 0 <= p < i
    && (p != NIL ==> lab[p] == lab[i])
    && forall k :: p < k < i ==> lab[k] != lab[i]
  }

  /** q is the first index behind i with i's label, or NIL. */
  ghost predicate IsNext(lab: seq<Label>, i: int, q: int)
    requires 1 <= i < |lab|
  {
    && (q == NIL || i < q < |lab|)
    && (q != NIL ==> lab[q] == lab[i])
    && forall k :: i < k < (if q == NIL then |lab| else q) ==> lab[k] != lab[i]
  }

  /** The arrays hold exactly the partition given by the labels. */
  ghost predicate Holds(fwd: seq<int>, bck: seq<int>, lab: seq<Label>) {
    && |lab| >= 1 && |fwd| >= |lab| && |bck| >= |lab|
    && (forall i :: 1 <= i < |lab| ==> IsPrev(lab, i, bck[i]))
    && (forall i :: 1 <= i < |lab| ==> IsNext(lab, i, fwd[i]))
  }

  /** The links alone: ascending, and each array the inverse of the other. */
  ghost predicate Linked(fwd: seq<int>, bck: seq<int>, n: nat) {
    && |fwd| > n && |bck| > n
    && (forall i :: 1 <= i <= n ==> fwd[i] == NIL || (i < fwd[i] <= n && bck[fwd[i]] == i))
    && (forall i :: 1 <= i <= n ==> bck[i] == NIL || (1 <= bck[i] < i && fwd[bck[i]] == i))
  }

  /** The head of i's chain: what bck leads to. */
  ghost function Head(bck: seq<int>, i: int): (h: int)
    ensures 1 <= i ==> 1 <= h <= i
    decreases i
  {
    if 1 <= i < |bck| && 1 <= bck[i] < i then Head(bck, bck[i]) else i
  }

  ghost predicate Together(bck: seq<int>, i: int, j: int) {
    Head(bck, i) == Head(bck, j)
  }

  /** The heads as labels. */
  ghost function Heads(bck: seq<int>, n: nat): (lab: seq<Label>)
    ensures |lab| == n + 1 && forall i :: 0 <= i <= n ==> lab[i] == Label(Head(bck, i), false)
  {
    seq(n + 1, i => Label(Head(bck, i), false))
  }

  lemma HeldLinked(fwd: seq<int>, bck: seq<int>, lab: seq<Label>)
    requires Holds(fwd, bck, lab)
    ensures Linked(fwd, bck, |lab| - 1)
  {
    forall i | 1 <= i < |lab| && fwd[i] != NIL ensures bck[fwd[i]] == i {
      var q := fwd[i];
      assert IsNext(lab, i, q) && IsPrev(lab, q, bck[q]);
    }
    forall i | 1 <= i < |lab| && bck[i] != NIL ensures fwd[bck[i]] == i {
      var p := bck[i];
      assert IsPrev(lab, i, p) && IsNext(lab, p, fwd[p]);
    }
  }

  /** A head has its chain's label, and is the first index that has it. */
  lemma {:induction false} HeadLabel(fwd: seq<int>, bck: seq<int>, lab: seq<Label>, i: int)
    requires Holds(fwd, bck, lab) && 1 <= i < |lab|
    ensures var h := Head(bck, i); 1 <= h <= i && lab[h] == lab[i] && forall k :: 1 <= k < h ==> lab[k] != lab[i]
    decreases i
  {
    assert IsPrev(lab, i, bck[i]);
    if bck[i] != NIL {
      HeadLabel(fwd, bck, lab, bck[i]);
    }
  }

  /** Being on one chain is having one label. */
  lemma TogetherIffLabel(fwd: seq<int>, bck: seq<int>, lab: seq<Label>, i: int, j: int)
    requires Holds(fwd, bck, lab) && 1 <= i < |lab| && 1 <= j < |lab|
    ensures Together(bck, i, j) <==> lab[i] == lab[j]
  {
    HeadLabel(fwd, bck, lab, i);
    HeadLabel(fwd, bck, lab, j);
  }

  /** Following fwd from i stays on i's chain. */
  lemma NextTogether(fwd: seq<int>, bck: seq<int>, n: nat, i: int)
    requires Linked(fwd, bck, n) && 1 <= i <= n && fwd[i] != NIL
    ensures Head(bck, fwd[i]) == Head(bck, i)
  {
  }

  /** On one chain, fwd leads from i to nothing beyond a later member j. */
  lemma {:induction false} SameChainOrder(fwd: seq<int>, bck: seq<int>, n: nat, i: int, j: int)
    requires Linked(fwd, bck, n) && 1 <= i < j <= n && Together(bck, i, j)
    ensures fwd[i] != NIL && fwd[i] <= j
    decreases j
  {
    if bck[j] == NIL {
      assert false;
    } else if bck[j] < i {
      SameChainOrder(fwd, bck, n, bck[j], i);
      assert false;
    } else if bck[j] > i {
      SameChainOrder(fwd, bck, n, i, bck[j]);
    }
  }

  /** Links that are ascending and mutually inverse hold the partition given by their heads. */
  lemma LinkedHolds(fwd: seq<int>, bck: seq<int>, n: nat)
    requires Linked(fwd, bck, n)
    ensures Holds(fwd, bck, Heads(bck, n))
  {
    var lab := Heads(bck, n);
    forall i | 1 <= i <= n ensures IsPrev(lab, i, bck[i]) && IsNext(lab, i, fwd[i]) {
      forall k | bck[i] < k < i ensures lab[k] != lab[i] {
        if 1 <= k && Together(bck, k, i) {
          SameChainOrder(fwd, bck, n, k, i);
          PrevNotBetween(fwd, bck, n, k, i);
        }
      }
      forall k | i < k < (if fwd[i] == NIL then n + 1 else fwd[i]) ensures lab[k] != lab[i] {
        if Together(bck, i, k) { SameChainOrder(fwd, bck, n, i, k); }
      }
      if fwd[i] != NIL { NextTogether(fwd, bck, n, i); }
    }
  }

  lemma {:induction false} PrevNotBetween(fwd: seq<int>, bck: seq<int>, n: nat, k: int, i: int)
    requires Linked(fwd, bck, n) && 1 <= k < i <= n && Together(bck, k, i)
    ensures bck[i] >= k
    decreases i
  {
    if bck[i] < k {
      if bck[i] != NIL {
        SameChainOrder(fwd, bck, n, bck[i], k);
      }
    }
  }
}
