/** Edit distance (ccclib/src/levenshtein.cpp): two rows computed in place against the least cost of an edit
    script, and against the best substring. */
module Levenshtein {

  import opened Basics

  // ----- edit scripts -----

  /** One step of a script, which reads its input from left to right. */
  datatype Edit<C> = Keep | Replace(c: C) | Insert(c: C) | Delete

  function Cost<C>(script: seq<Edit<C>>): nat
    decreases |script|
  {
    if script == [] then 0
    else Cost(script[..|script| - 1]) + (if script[|script| - 1].Keep? then 0 else 1)
  }

  /** The script turns a into b. */
  ghost predicate Turns<C>(script: seq<Edit<C>>, a: seq<C>, b: seq<C>)
    decreases |script|
  {
    if script == [] then a == [] && b == []
    else
      var front := script[..|script| - 1];
      match script[|script| - 1]
      case Keep => a != [] && b != [] && a[|a| - 1] == b[|b| - 1] && Turns(front, a[..|a| - 1], b[..|b| - 1])
      case Replace(c) => a != [] && b != [] && b[|b| - 1] == c && Turns(front, a[..|a| - 1], b[..|b| - 1])
      case Insert(c) => b != [] && b[|b| - 1] == c && Turns(front, a, b[..|b| - 1])
      case Delete => a != [] && Turns(front, a[..|a| - 1], b)
  }

  // ----- the recurrence -----

  function Dist<C(==)>(a: seq<C>, b: seq<C>): (d: nat)
    decreases |a| + |b|
  {
    if a == [] then |b|
    else if b == [] then |a|
    else
      var a', b' := a[..|a| - 1], b[..|b| - 1];
      Min(Min(Dist(a', b) + 1, Dist(a, b') + 1), Dist(a', b') + (if a[|a| - 1] == b[|b| - 1] then 0 else 1))
  }

  lemma {:induction false} DistEmpty<C>(a: seq<C>, b: seq<C>)
    ensures Dist(a, []) == |a| && Dist([], b) == |b|
  {
  }

  /** No script is cheaper than the recurrence says. */
  lemma {:induction false} NoCheaper<C>(script: seq<Edit<C>>, a: seq<C>, b: seq<C>)
    requires Turns(script, a, b)
    ensures Dist(a, b) <= Cost(script)
    decreases |script|
  {
    if script != [] {
      var front := script[..|script| - 1];
      match script[|script| - 1]
      case Keep => NoCheaper(front, a[..|a| - 1], b[..|b| - 1]);
      case Replace(c) => NoCheaper(front, a[..|a| - 1], b[..|b| - 1]);
      case Insert(c) =>
        NoCheaper(front, a, b[..|b| - 1]);
        DistEmpty(a, b[..|b| - 1]);
      case Delete =>
        NoCheaper(front, a[..|a| - 1], b);
        DistEmpty(a[..|a| - 1], b);
    }
  }

  lemma Extend<C>(front: seq<Edit<C>>, e: Edit<C>)
    ensures (front + [e])[..|front|] == front
    ensures Cost(front + [e]) == Cost(front) + (if e.Keep? then 0 else 1)
  {
    assert (front + [e])[..|front|] == front;
  }

  /** Some script is as cheap as that. */
  lemma {:induction false} SomeScript<C>(a: seq<C>, b: seq<C>) returns (script: seq<Edit<C>>)
    ensures Turns(script, a, b) && Cost(script) == Dist(a, b)
    decreases |a| + |b|
  {
    if a == [] && b == [] {
      script := [];
    } else if a == [] || (b != [] && Dist(a, b) == Dist(a, b[..|b| - 1]) + 1) {
      script := SomeScript(a, b[..|b| - 1]);
      Extend(script, Insert(b[|b| - 1]));
      script := script + [Insert(b[|b| - 1])];
    } else if b == [] || Dist(a, b) == Dist(a[..|a| - 1], b) + 1 {
      script := SomeScript(a[..|a| - 1], b);
      Extend(script, Delete);
      DistEmpty(a, b);
      DistEmpty(a[..|a| - 1], b);
      script := script + [Delete];
    } else {
      script := SomeScript(a[..|a| - 1], b[..|b| - 1]);
      var e := if a[|a| - 1] == b[|b| - 1] then Keep else Replace(b[|b| - 1]);
      Extend(script, e);
      script := script + [e];
    }
  }

  /** d is the least cost of a script that turns a into b. */
  ghost predicate LeastCost<C(!new)>(a: seq<C>, b: seq<C>, d: nat) {
    && (exists script :: Turns(script, a, b) && Cost(script) == d)
    && forall script :: Turns(script, a, b) ==> d <= Cost(script)
  }

  lemma DistIsLeastCost<C(!new)>(a: seq<C>, b: seq<C>)
    ensures LeastCost(a, b, Dist(a, b))
  {
    var script := SomeScript(a, b);
    forall s | Turns(s, a, b) ensures Dist(a, b) <= Cost(s) { NoCheaper(s, a, b); }
  }

  // ----- a metric -----

  lemma {:induction false} Symmetric<C>(a: seq<C>, b: seq<C>)
    ensures Dist(a, b) == Dist(b, a)
    decreases |a| + |b|
  {
    if a != [] && b != [] {
      Symmetric(a[..|a| - 1], b);
      Symmetric(a, b[..|b| - 1]);
      Symmetric(a[..|a| - 1], b[..|b| - 1]);
    } else {
      DistEmpty(a, b);
      DistEmpty(b, a);
    }
  }

  lemma {:induction false} ZeroIffEqual<C>(a: seq<C>, b: seq<C>)
    ensures Dist(a, b) == 0 <==> a == b
    decreases |a| + |b|
  {
    if a != [] && b != [] {
      var a', b' := a[..|a| - 1], b[..|b| - 1];
      ZeroIffEqual(a', b');
      assert a == a' + [a[|a| - 1]] && b == b' + [b[|b| - 1]];
    } else {
      DistEmpty(a, b);
    }
  }

  /** Two scripts, one after the other, make one that costs no more than both. */
  lemma {:induction false} Compose<C>(p: seq<Edit<C>>, q: seq<Edit<C>>, a: seq<C>, b: seq<C>, c: seq<C>) returns (r: seq<Edit<C>>)
    requires Turns(p, a, b) && Turns(q, b, c)
    ensures Turns(r, a, c) && Cost(r) <= Cost(p) + Cost(q)
    decreases |p| + |q|
  {
    if p != [] && p[|p| - 1].Delete? {
      r := Compose(p[..|p| - 1], q, a[..|a| - 1], b, c);
      Extend(r, Delete);
      r := r + [Delete];
    } else if q != [] && q[|q| - 1].Insert? {
      r := Compose(p, q[..|q| - 1], a, b, c[..|c| - 1]);
      Extend(r, Insert(c[|c| - 1]));
      r := r + [Insert(c[|c| - 1])];
    } else if p == [] || q == [] {
      r := [];
    } else {
      // the last element of b comes from p's last step and goes into q's last step
      var p', q', b' := p[..|p| - 1], q[..|q| - 1], b[..|b| - 1];
      if p[|p| - 1].Insert? && q[|q| - 1].Delete? {
        r := Compose(p', q', a, b', c);
      } else if p[|p| - 1].Insert? {
        r := Compose(p', q', a, b', c[..|c| - 1]);
        Extend(r, Insert(c[|c| - 1]));
        r := r + [Insert(c[|c| - 1])];
      } else if q[|q| - 1].Delete? {
        r := Compose(p', q', a[..|a| - 1], b', c);
        Extend(r, Delete);
        r := r + [Delete];
      } else {
        r := Compose(p', q', a[..|a| - 1], b', c[..|c| - 1]);
        var e := if a[|a| - 1] == c[|c| - 1] then Keep else Replace(c[|c| - 1]);
        Extend(r, e);
        r := r + [e];
      }
    }
  }

  lemma Triangle<C>(a: seq<C>, b: seq<C>, c: seq<C>)
    ensures Dist(a, c) <= Dist(a, b) + Dist(b, c)
  {
    var p := SomeScript(a, b);
    var q := SomeScript(b, c);
    var r := Compose(p, q, a, b, c);
    NoCheaper(r, a, c);
  }

  // ----- the table of distances -----

  lemma DistIs<C>(a: seq<C>, b: seq<C>)
    requires a != [] && b != []
    ensures var a', b' := a[..|a| - 1], b[..|b| - 1];
            Dist(a, b) == Min(Min(Dist(a', b) + 1, Dist(a, b') + 1), Dist(a', b') + (if a[|a| - 1] == b[|b| - 1] then 0 else 1))
  {
  }

  /** A common end costs nothing. */
  lemma {:induction false} CommonEnd<C>(p: seq<C>, q: seq<C>, s: seq<C>)
    ensures Dist(p + s, q + s) <= Dist(p, q)
    decreases |s|
  {
    if s == [] {
      assert p + s == p && q + s == q;
    } else {
      var front := s[..|s| - 1];
      CommonEnd(p, q, front);
      DistIs(p + s, q + s);
      assert (p + s)[..|p + s| - 1] == p + front && (q + s)[..|q + s| - 1] == q + front;
    }
  }

  /** Inserting, deleting or replacing one element anywhere is a distance of 1. */
  lemma OneEdit<C>(a: seq<C>, x: C, y: C, b: seq<C>)
    ensures Dist(a + b, a + [x] + b) == 1 && Dist(a + [x] + b, a + b) == 1
    ensures x != y ==> Dist(a + [x] + b, a + [y] + b) == 1
  {
    var ax, ay := a + [x], a + [y];
    ZeroIffEqual(a, a);
    assert ax[..|ax| - 1] == a && ay[..|ay| - 1] == a;
    DistEmpty(a, ax);
    if a != [] { DistIs(a, ax); }
    DistIs(ax, ay);
    CommonEnd(a, ax, b);
    CommonEnd(ax, ay, b);
    ZeroIffEqual(a + b, ax + b);
    ZeroIffEqual(ax + b, ay + b);
    Symmetric(a + b, ax + b);
    assert |a + b| != |ax + b|;
    assert (ax + b)[|a|] == x && (ay + b)[|a|] == y;
  }

  lemma Prefixes<C>(a: seq<C>, i: nat)
    requires 0 < i <= |a|
    ensures a[..i][..|a[..i]| - 1] == a[..i - 1] && a[..i][|a[..i]| - 1] == a[i - 1]
  {
  }

  /** One row of the table: dc from dp, b's element c being the last one considered. */
  method DistanceRow<C(==)>(a: seq<C>, b: seq<C>, idxb: nat, dp: array<nat>, dc: array<nat>)
    requires 0 < idxb <= |b| && dp != dc && dp.Length == dc.Length == |a| + 1
    requires forall i :: 0 <= i <= |a| ==> dp[i] == Dist(a[..i], b[..idxb - 1])
    modifies dc
    ensures forall i :: 0 <= i <= |a| ==> dc[i] == Dist(a[..i], b[..idxb])
  {
    dc[0] := idxb;
    Prefixes(b, idxb);
    DistEmpty(a, b[..idxb]);
    assert a[..0] == [];
    hide Dist;
    var idxa := 1;
    while idxa <= |a|
      invariant 1 <= idxa <= |a| + 1
      invariant forall i :: 0 <= i < idxa ==> dc[i] == Dist(a[..i], b[..idxb])
      invariant forall i :: 0 <= i <= |a| ==> dp[i] == Dist(a[..i], b[..idxb - 1])
    {
      Prefixes(a, idxa);
      DistIs(a[..idxa], b[..idxb]);
      var c := dc[idxa - 1] + 1;
      var c1 := dp[idxa] + 1;
      if c > c1 { c := c1; }
      c1 := dp[idxa - 1] + (if b[idxb - 1] == a[idxa - 1] then 0 else 1);
      if c > c1 { c := c1; }
      dc[idxa] := c;
      idxa := idxa + 1;
    }
  }

  /** levenshtein_distance. */
  method LevenshteinDistance<C(==)>(a: seq<C>, b: seq<C>) returns (dist: nat)
    ensures dist == Dist(a, b)
  {
    var dp := new nat[|a| + 1];
    var dc := new nat[|a| + 1];
    var idxa := 0;
    while idxa <= |a|
      invariant 0 <= idxa <= |a| + 1
      invariant forall i :: 0 <= i < idxa ==> dc[i] == i
    {
      dc[idxa] := idxa;
      idxa := idxa + 1;
    }
    forall i | 0 <= i <= |a| ensures dc[i] == Dist(a[..i], b[..0]) { DistEmpty(a[..i], b[..0]); }
    var idxb := 1;
    while idxb <= |b|
      invariant 1 <= idxb <= |b| + 1 && dp.Length == dc.Length == |a| + 1 && dp != dc && fresh(dp) && fresh(dc)
      invariant forall i :: 0 <= i <= |a| ==> dc[i] == Dist(a[..i], b[..idxb - 1])
    {
      dp, dc := dc, dp;
      DistanceRow(a, b, idxb, dp, dc);
      idxb := idxb + 1;
    }
    assert a[..|a|] == a && b[..|b|] == b;
    dist := dc[|a|];
  }

  // ----- substrings -----

  /** Distance of a to the best suffix of b: the first column is free. */
  function SuffixDist<C(==)>(a: seq<C>, b: seq<C>): (d: nat)
    decreases |a| + |b|
  {
    if a == [] then 0
    else if b == [] then |a|
    else
      var a', b' := a[..|a| - 1], b[..|b| - 1];
      Min(Min(SuffixDist(a', b) + 1, SuffixDist(a, b') + 1), SuffixDist(a', b') + (if a[|a| - 1] == b[|b| - 1] then 0 else 1))
  }

  /** The last column: a step down is free as well. */
  function SubstringDist<C(==)>(a: seq<C>, b: seq<C>): (d: nat)
    decreases |b|
  {
    if a == [] then 0
    else if b == [] then |a|
    else
      var a', b' := a[..|a| - 1], b[..|b| - 1];
      Min(Min(SuffixDist(a', b) + 1, SubstringDist(a, b')), SuffixDist(a', b') + (if a[|a| - 1] == b[|b| - 1] then 0 else 1))
  }

  lemma SuffixLast<C>(b: seq<C>, i: nat)
    requires i < |b|
    ensures b[i..] != [] && b[i..][|b[i..]| - 1] == b[|b| - 1] && b[i..][..|b[i..]| - 1] == b[..|b| - 1][i..]
  {
  }

  lemma {:induction false} SuffixAtMost<C>(a: seq<C>, b: seq<C>, i: nat)
    requires i <= |b|
    ensures SuffixDist(a, b) <= Dist(a, b[i..])
    decreases |a| + |b|
  {
    if a != [] && b != [] {
      var a', b' := a[..|a| - 1], b[..|b| - 1];
      SuffixAtMost(a', b, i);
      if i < |b| {
        SuffixLast(b, i);
        SuffixAtMost(a, b', i);
        SuffixAtMost(a', b', i);
      } else {
        DistEmpty(a, b);
        DistEmpty(a', b);
      }
    } else if a != [] {
      DistEmpty(a, b);
    }
  }

  lemma SuffixDistIs<C>(a: seq<C>, b: seq<C>)
    ensures a == [] ==> SuffixDist(a, b) == 0
    ensures a != [] && b == [] ==> SuffixDist(a, b) == |a|
    ensures a != [] && b != [] ==>
      var a', b' := a[..|a| - 1], b[..|b| - 1];
      SuffixDist(a, b) == Min(Min(SuffixDist(a', b) + 1, SuffixDist(a, b') + 1),
                              SuffixDist(a', b') + (if a[|a| - 1] == b[|b| - 1] then 0 else 1))
  {
  }

  lemma {:induction false} SuffixReached<C>(a: seq<C>, b: seq<C>) returns (i: nat)
    ensures i <= |b| && Dist(a, b[i..]) <= SuffixDist(a, b)
    decreases |a| + |b|
  {
    hide Dist, SuffixDist;
    SuffixDistIs(a, b);
    if a == [] {
      i := |b|;
      DistEmpty(a, b[i..]);
    } else if b == [] {
      i := 0;
      DistEmpty(a, b);
    } else {
      var a', b' := a[..|a| - 1], b[..|b| - 1];
      if SuffixDist(a, b) == SuffixDist(a', b) + 1 {
        i := SuffixReached(a', b);
        if i == |b| {
          assert b[i..] == [];
          DistEmpty(a, b);
          DistEmpty(a', b);
        } else {
          DistIs(a, b[i..]);
        }
      } else if SuffixDist(a, b) == SuffixDist(a, b') + 1 {
        i := SuffixReached(a, b');
        SuffixLast(b, i);
        DistIs(a, b[i..]);
      } else {
        i := SuffixReached(a', b');
        SuffixLast(b, i);
        DistIs(a, b[i..]);
      }
    }
  }

  /** The free step down keeps the best of all shorter prefixes. */
  lemma {:induction false} SubstringAtMost<C>(a: seq<C>, b: seq<C>, j: nat)
    requires j <= |b|
    ensures SubstringDist(a, b) <= SuffixDist(a, b[..j])
    decreases |b|
  {
    if a != [] && b != [] {
      var b' := b[..|b| - 1];
      if j < |b| {
        SubstringAtMost(a, b', j);
        assert b'[..j] == b[..j];
      } else {
        SubstringAtMost(a, b', |b'|);
        assert b'[..|b'|] == b' && b[..j] == b;
      }
    } else if b == [] {
      assert b[..j] == [];
    }
  }

  lemma {:induction false} SubstringReached<C>(a: seq<C>, b: seq<C>) returns (j: nat)
    ensures j <= |b| && SuffixDist(a, b[..j]) <= SubstringDist(a, b)
    decreases |b|
  {
    if a == [] || b == [] {
      j := 0;
    } else if SubstringDist(a, b) == SubstringDist(a, b[..|b| - 1]) {
      j := SubstringReached(a, b[..|b| - 1]);
      assert b[..|b| - 1][..j] == b[..j];
    } else {
      j := |b|;
      assert b[..j] == b;
    }
  }

  /** d is the distance of a to the nearest substring of b. */
  ghost predicate NearestSubstring<C>(a: seq<C>, b: seq<C>, d: nat) {
    && (exists i, j :: 0 <= i <= j <= |b| && Dist(a, b[i..j]) == d)
    && forall i, j :: 0 <= i <= j <= |b| ==> d <= Dist(a, b[i..j])
  }

  lemma SubstringDistIsNearest<C>(a: seq<C>, b: seq<C>)
    ensures NearestSubstring(a, b, SubstringDist(a, b))
  {
    forall i, j | 0 <= i <= j <= |b| ensures SubstringDist(a, b) <= Dist(a, b[i..j]) {
      SubstringAtMost(a, b, j);
      SuffixAtMost(a, b[..j], i);
      assert b[..j][i..] == b[i..j];
    }
    var j := SubstringReached(a, b);
    var i := SuffixReached(a, b[..j]);
    assert b[..j][i..] == b[i..j];
  }

  /** What column idxa of the table holds. */
  ghost function Column<C>(a: seq<C>, i: nat, b: seq<C>): nat
    requires i <= |a|
  {
    if i == |a| then SubstringDist(a, b) else SuffixDist(a[..i], b)
  }

  method SubstringRow<C(==)>(a: seq<C>, b: seq<C>, idxb: nat, dp: array<nat>, dc: array<nat>)
    requires 0 < idxb <= |b| && dp != dc && dp.Length == dc.Length == |a| + 1
    requires forall i :: 0 <= i <= |a| ==> dp[i] == Column(a, i, b[..idxb - 1])
    modifies dc
    ensures forall i :: 0 <= i <= |a| ==> dc[i] == Column(a, i, b[..idxb])
  {
    dc[0] := 0;
    Prefixes(b, idxb);
    var idxa := 1;
    while idxa <= |a|
      invariant 1 <= idxa <= |a| + 1
      invariant forall i :: 0 <= i < idxa ==> dc[i] == Column(a, i, b[..idxb])
      invariant forall i :: 0 <= i <= |a| ==> dp[i] == Column(a, i, b[..idxb - 1])
    {
      Prefixes(a, idxa);
      assert a[..|a|] == a;
      var c := dc[idxa - 1] + 1;
      var c1 := dp[idxa] + (if idxa == |a| then 0 else 1);
      if c > c1 { c := c1; }
      c1 := dp[idxa - 1] + (if b[idxb - 1] == a[idxa - 1] then 0 else 1);
      if c > c1 { c := c1; }
      dc[idxa] := c;
      idxa := idxa + 1;
    }
  }

  /** levenshtein_substring: the distance of a to the nearest substring of b. */
  method LevenshteinSubstring<C(==)>(a: seq<C>, b: seq<C>) returns (dist: nat)
    ensures dist == SubstringDist(a, b) && NearestSubstring(a, b, dist)
  {
    var dp := new nat[|a| + 1];
    var dc := new nat[|a| + 1];
    var idxa := 0;
    while idxa <= |a|
      invariant 0 <= idxa <= |a| + 1
      invariant forall i :: 0 <= i < idxa ==> dc[i] == i
    {
      dc[idxa] := idxa;
      idxa := idxa + 1;
    }
    assert b[..0] == [];
    var idxb := 1;
    while idxb <= |b|
      invariant 1 <= idxb <= |b| + 1 && dp.Length == dc.Length == |a| + 1 && dp != dc && fresh(dp) && fresh(dc)
      invariant forall i :: 0 <= i <= |a| ==> dc[i] == Column(a, i, b[..idxb - 1])
    {
      dp, dc := dc, dp;
      SubstringRow(a, b, idxb, dp, dc);
      idxb := idxb + 1;
    }
    assert b[..|b|] == b;
    SubstringDistIsNearest(a, b);
    dist := dc[|a|];
  }
}
