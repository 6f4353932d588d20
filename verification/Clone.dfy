/** aclone (ccclib/src/array.cpp): the deep copy of an array, and what it is a copy of. */
module Clone {
  import opened Basics
  import opened Objects
  import opened Arrays

  /** What an array stands for when the arrays in it are followed. */
  datatype Tree = Leaf(v: Value) | Branch(children: seq<Tree>) | Cut

  /** Array o, followed n levels deep; els holds the elements of all arrays. */
  function Unfold(els: seq<seq<Value>>, o: nat, n: nat): Tree
    decreases n, 0
  {
    if n == 0 || o >= |els| then Cut else Branch(Forest(els, els[o], n - 1))
  }

  function Forest(els: seq<seq<Value>>, vs: seq<Value>, n: nat): (ts: seq<Tree>)
    ensures |ts| == |vs|
    decreases n, 1 + |vs|
  {
    if vs == [] then []
    else
      var v := vs[|vs| - 1];
      Forest(els, vs[..|vs| - 1], n) + [if IsArray(v) then Unfold(els, v.oref.value, n) else Leaf(v)]
  }

  /** The arrays in the tree, from the top and from the left, each as often as it occurs. */
  function Nodes(els: seq<seq<Value>>, o: nat, n: nat): (q: seq<nat>)
    ensures if n == 0 || o >= |els| then q == [] else |q| > 0 && q[0] == o
    decreases n, 0
  {
    if n == 0 || o >= |els| then [] else [o] + NodesOf(els, els[o], n - 1)
  }

  function NodesOf(els: seq<seq<Value>>, vs: seq<Value>, n: nat): seq<nat>
    decreases n, 1 + |vs|
  {
    if vs == [] then []
    else
      var v := vs[|vs| - 1];
      NodesOf(els, vs[..|vs| - 1], n) + if IsArray(v) then Nodes(els, v.oref.value, n) else []
  }

  /** Following arrays from o ends before n levels, and meets only orefs in s. */
  ghost predicate Below(els: seq<seq<Value>>, o: nat, n: nat, s: iset<nat>)
    decreases n
  {
    n > 0 && o < |els| && o in s && forall v :: v in els[o] && IsArray(v) ==> Below(els, v.oref.value, n - 1, s)
  }

  ghost predicate AllBelow(els: seq<seq<Value>>, vs: seq<Value>, n: nat, s: iset<nat>) {
    forall v :: v in vs && IsArray(v) ==> Below(els, v.oref.value, n, s)
  }

  /** The arrays in o can be followed to the end: o does not contain itself. */
  ghost predicate Finite(els: seq<seq<Value>>, o: nat, n: nat) {
    Below(els, o, n, Indices(els))
  }

  ghost function Indices(els: seq<seq<Value>>): iset<nat> {
    iset u: nat | IsIndex(els, u)
  }

  ghost predicate IsIndex(els: seq<seq<Value>>, u: nat) { u < |els| }

  ghost predicate Agree(els: seq<seq<Value>>, els': seq<seq<Value>>, s: iset<nat>) {
    |els| == |els'| && forall u: nat :: u < |els| && u in s ==> els[u] == els'[u]
  }

  /** The tree depends on the orefs in it only. */
  lemma {:induction false} SameBelow(els: seq<seq<Value>>, els': seq<seq<Value>>, o: nat, n: nat, s: iset<nat>)
    requires Below(els, o, n, s) && Agree(els, els', s)
    ensures Below(els', o, n, s) && Unfold(els', o, n) == Unfold(els, o, n) && Nodes(els', o, n) == Nodes(els, o, n)
    decreases n, 0
  {
    SameForest(els, els', els[o], n - 1, s);
  }

  lemma {:induction false} SameForest(els: seq<seq<Value>>, els': seq<seq<Value>>, vs: seq<Value>, n: nat, s: iset<nat>)
    requires AllBelow(els, vs, n, s) && Agree(els, els', s)
    ensures AllBelow(els', vs, n, s)
    ensures Forest(els', vs, n) == Forest(els, vs, n) && NodesOf(els', vs, n) == NodesOf(els, vs, n)
    decreases n, 1 + |vs|
  {
    if vs != [] {
      var front, v := vs[..|vs| - 1], vs[|vs| - 1];
      SameForest(els, els', front, n, s);
      if IsArray(v) { SameBelow(els, els', v.oref.value, n, s); }
    }
  }

  lemma {:induction false} Widen(els: seq<seq<Value>>, o: nat, n: nat, s: iset<nat>, t: iset<nat>)
    requires Below(els, o, n, s) && s <= t
    ensures Below(els, o, n, t)
    decreases n
  {
    forall v | v in els[o] && IsArray(v) ensures Below(els, v.oref.value, n - 1, t) {
      Widen(els, v.oref.value, n - 1, s, t);
    }
  }

  /** Only orefs in s are ever mentioned. */
  ghost predicate Mentions(els: seq<seq<Value>>, s: iset<nat>) {
    forall o, v :: 0 <= o < |els| && v in els[o] && IsArray(v) ==> v.oref.value in s
  }

  lemma {:induction false} Narrow(els: seq<seq<Value>>, o: nat, n: nat, s: iset<nat>)
    requires Finite(els, o, n) && o in s && Mentions(els, s)
    ensures Below(els, o, n, s)
    decreases n
  {
    forall v | v in els[o] && IsArray(v) ensures Below(els, v.oref.value, n - 1, s) {
      Narrow(els, v.oref.value, n - 1, s);
    }
  }

  /** Followed to the end, the tree has no cut, so going deeper shows nothing new. */
  lemma {:induction false} Whole(els: seq<seq<Value>>, o: nat, n: nat)
    requires Finite(els, o, n)
    ensures Unfold(els, o, n + 1) == Unfold(els, o, n)
    decreases n, 0
  {
    WholeForest(els, els[o], n - 1);
  }

  lemma {:induction false} WholeForest(els: seq<seq<Value>>, vs: seq<Value>, n: nat)
    requires AllBelow(els, vs, n, Indices(els))
    ensures Forest(els, vs, n + 1) == Forest(els, vs, n)
    decreases n, 1 + |vs|
  {
    if vs != [] {
      var front, v := vs[..|vs| - 1], vs[|vs| - 1];
      WholeForest(els, front, n);
      if IsArray(v) { Whole(els, v.oref.value, n); }
    }
  }

  lemma {:induction false} NodesPrefix(els: seq<seq<Value>>, vs: seq<Value>, n: nat, i: nat)
    requires i <= |vs|
    ensures |NodesOf(els, vs[..i], n)| <= |NodesOf(els, vs, n)|
    decreases |vs| - i
  {
    if i == |vs| {
      assert vs[..i] == vs;
    } else {
      NodesPrefix(els, vs, n, i + 1);
      assert vs[..i + 1][..i] == vs[..i];
    }
  }

  lemma ForestMore(els: seq<seq<Value>>, vs: seq<Value>, n: nat, i: nat)
    requires i < |vs|
    ensures Forest(els, vs[..i + 1], n) ==
            Forest(els, vs[..i], n) + [if IsArray(vs[i]) then Unfold(els, vs[i].oref.value, n) else Leaf(vs[i])]
    ensures NodesOf(els, vs[..i + 1], n) ==
            NodesOf(els, vs[..i], n) + if IsArray(vs[i]) then Nodes(els, vs[i].oref.value, n) else []
  {
    assert vs[..i + 1][..i] == vs[..i];
  }

  lemma ForestAppend(els: seq<seq<Value>>, vs: seq<Value>, n: nat, v: Value)
    ensures Forest(els, vs + [v], n) == Forest(els, vs, n) + [if IsArray(v) then Unfold(els, v.oref.value, n) else Leaf(v)]
    ensures NodesOf(els, vs + [v], n) == NodesOf(els, vs, n) + if IsArray(v) then Nodes(els, v.oref.value, n) else []
  {
    assert (vs + [v])[..|vs|] == vs;
  }

  // ----- arrays that contain themselves -----

  ghost predicate InRange(els: seq<seq<Value>>) {
    forall o, v :: 0 <= o < |els| && v in els[o] && IsArray(v) ==> v.oref.value < |els|
  }

  /** An element's arrays are among those of all elements. */
  lemma NodesWithin(els: seq<seq<Value>>, vs: seq<Value>, n: nat, v: Value)
    requires v in vs && IsArray(v)
    ensures |Nodes(els, v.oref.value, n)| <= |NodesOf(els, vs, n)|
  {
    hide Nodes, NodesOf;
    var i :| 0 <= i < |vs| && vs[i] == v;
    ForestMore(els, vs, n, i);
    NodesPrefix(els, vs, n, i + 1);
  }

  /** As long as the end has not been reached, every level adds at least one array. */
  lemma {:induction false} NodesPileUp(els: seq<seq<Value>>, o: nat, n: nat)
    requires InRange(els) && o < |els| && !Finite(els, o, n)
    ensures |Nodes(els, o, n)| >= n
    decreases n
  {
    if n > 0 {
      var v :| v in els[o] && IsArray(v) && !Below(els, v.oref.value, n - 1, Indices(els));
      NodesPileUp(els, v.oref.value, n - 1);
      NodesWithin(els, els[o], n - 1, v);
    }
  }

  lemma {:induction false} NodesGrow(els: seq<seq<Value>>, o: nat, n: nat)
    ensures |Nodes(els, o, n)| <= |Nodes(els, o, n + 1)|
    ensures Finite(els, o, n) ==> Nodes(els, o, n) == Nodes(els, o, n + 1) && Finite(els, o, n + 1)
    decreases n, 0
  {
    if n > 0 && o < |els| { NodesOfGrow(els, els[o], n - 1); }
  }

  lemma {:induction false} NodesOfGrow(els: seq<seq<Value>>, vs: seq<Value>, n: nat)
    ensures |NodesOf(els, vs, n)| <= |NodesOf(els, vs, n + 1)|
    ensures AllBelow(els, vs, n, Indices(els)) ==>
              NodesOf(els, vs, n) == NodesOf(els, vs, n + 1) && AllBelow(els, vs, n + 1, Indices(els))
    decreases n, 1 + |vs|
  {
    if vs != [] {
      var front, v := vs[..|vs| - 1], vs[|vs| - 1];
      NodesOfGrow(els, front, n);
      if IsArray(v) { NodesGrow(els, v.oref.value, n); }
      hide Below;
    }
  }

  lemma {:induction false} NodesBounded(els: seq<seq<Value>>, o: nat, n: nat, m: nat)
    requires Finite(els, o, n)
    ensures |Nodes(els, o, m)| <= |Nodes(els, o, n)|
    decreases if m <= n then n - m else m - n
  {
    hide Below;
    if m < n {
      NodesGrow(els, o, m);
      NodesBounded(els, o, n, m + 1);
    } else if m > n {
      NodesStay(els, o, n, m);
    }
  }

  lemma {:induction false} NodesStay(els: seq<seq<Value>>, o: nat, n: nat, m: nat)
    requires Finite(els, o, n) && n <= m
    ensures Nodes(els, o, m) == Nodes(els, o, n) && Finite(els, o, m)
    decreases m - n
  {
    if n < m {
      NodesStay(els, o, n, m - 1);
      NodesGrow(els, o, m - 1);
    }
  }

  /** A copy of o never needs more than k cells, however deep it goes. */
  ghost predicate Suffices(els: seq<seq<Value>>, o: nat, k: nat) {
    forall n: nat :: |Nodes(els, o, n)| <= k
  }

  /** Some number of cells is enough for a copy exactly if the array does not contain itself. */
  lemma FiniteIffBounded(els: seq<seq<Value>>, o: nat)
    requires InRange(els) && o < |els|
    ensures (exists n: nat :: Finite(els, o, n)) <==> exists k: nat :: Suffices(els, o, k)
  {
    hide Below, Nodes;
    if n: nat :| Finite(els, o, n) {
      forall m: nat ensures |Nodes(els, o, m)| <= |Nodes(els, o, n)| { NodesBounded(els, o, n, m); }
      assert Suffices(els, o, |Nodes(els, o, n)|);
    } else {
      forall k: nat ensures !Suffices(els, o, k) {
        NodesPileUp(els, o, k + 1);
      }
    }
  }

  /** An array that is its own element is never followed to the end. */
  lemma {:induction false} SelfContained(n: nat)
    ensures var els := [[Container(Kind.Array, Some(0))]]; !Finite(els, 0, n) && |Nodes(els, 0, n)| == n
    decreases n
  {
    var a := Container(Kind.Array, Some(0));
    var els := [[a]];
    if n > 0 {
      SelfContained(n - 1);
      assert a in els[0] && IsArray(a);
      assert [a][..0] == [];
      assert NodesOf(els, [a], n - 1) == NodesOf(els, [], n - 1) + Nodes(els, 0, n - 1);
    }
  }

  // ----- the operation -----

  /** The elements of all arrays. */
  ghost function All(st: Store): (els: seq<seq<Value>>)
    requires Owned(st)
    ensures |els| == |st.ptr| && forall o: nat :: o < |els| ==> els[o] == Elements(st, o)
  {
    seq(|st.ptr|, o requires 0 <= o < |st.ptr| => Elements(st, o))
  }

  ghost function Used(used: seq<bool>): iset<nat> {
    iset u: nat | u < |used| && used[u]
  }

  /** The cells that oref_new hands out, in this order. */
  ghost predicate Pool(used: seq<bool>, pool: seq<nat>) {
    && (forall i :: 0 <= i < |pool| ==> pool[i] < |used| && !used[pool[i]])
    && forall i, j :: 0 <= i < j < |pool| ==> pool[i] != pool[j]
  }

  ghost function Taken(pool: seq<nat>): iset<nat> {
    iset u: nat | u in pool
  }

  /** What aclone leaves when it copies array o with k cells of the pool: the copy unfolds to the same tree, its
      arrays are those k cells in their order, each in one place only, and all other arrays are as they were. */
  ghost predicate Copied(els: seq<seq<Value>>, els': seq<seq<Value>>, o: nat, n: nat, pool: seq<nat>, k: nat) {
    && 0 < k <= |pool| && k == |Nodes(els, o, n)| && |els'| == |els|
    && Unfold(els', pool[0], n) == Unfold(els, o, n)
    && Below(els', pool[0], n, Taken(pool[..k])) && Nodes(els', pool[0], n) == pool[..k]
    && (forall u: nat :: u < |els| && u !in pool[..k] ==> els'[u] == els[u])
  }

  /** Half way: the first i elements of o are copied, with k cells of the pool. */
  ghost predicate Copying(els0: seq<seq<Value>>, els: seq<seq<Value>>, o: nat, n: nat, pool: seq<nat>,
                          done: seq<Value>, i: nat, k: nat) {
    && n > 0 && o < |els0| == |els| && i <= |els0[o]| && |done| == i
    && 0 < k <= |pool| && k == 1 + |NodesOf(els0, els0[o][..i], n - 1)|
    && pool[0] < |els| && els[pool[0]] == done + seq(|els0[o]| - i, _ => Nil)
    && Forest(els, done, n - 1) == Forest(els0, els0[o][..i], n - 1)
    && AllBelow(els, done, n - 1, Taken(pool[1..k])) && NodesOf(els, done, n - 1) == pool[1..k]
    && (forall u: nat :: u < |els| && u !in pool[..k] ==> els[u] == els0[u])
  }

  ghost predicate Separate(pool: seq<nat>, s: iset<nat>) {
    && (forall i :: 0 <= i < |pool| ==> pool[i] !in s)
    && forall i, j :: 0 <= i < j < |pool| ==> pool[i] != pool[j]
  }

  /** The array that is copied, and the cells that there are for the copy. */
  ghost predicate Source(els: seq<seq<Value>>, o: nat, n: nat, pool: seq<nat>, s: iset<nat>) {
    Finite(els, o, n) && o in s && Mentions(els, s) && Separate(pool, s) && |Nodes(els, o, n)| <= |pool|
  }

  lemma CopyStart(els0: seq<seq<Value>>, els: seq<seq<Value>>, o: nat, n: nat, pool: seq<nat>)
    requires n > 0 && o < |els0| == |els| && |pool| > 0 && pool[0] < |els|
    requires els == els0[pool[0] := seq(|els0[o]|, _ => Nil)]
    ensures Copying(els0, els, o, n, pool, [], 0, 1)
  {
    assert els0[o][..0] == [];
    assert pool[..1] == [pool[0]];
  }

  /** One more element, whatever it became, in front of the NILs that are left. */
  lemma OneMore(done: seq<Value>, m: nat, w: Value)
    requires m > 0
    ensures (done + seq(m, _ => Nil))[|done| := w] == (done + [w]) + seq(m - 1, _ => Nil)
  {
  }

  /** Writing to the copy does not reach what has been copied into it. */
  lemma WriteApart(els: seq<seq<Value>>, els': seq<seq<Value>>, pool: seq<nat>, k: nat, vs: seq<Value>, n: nat,
                   s: iset<nat>)
    requires 0 < k <= |pool| && Separate(pool, s) && pool[0] < |els| && AllBelow(els, vs, n, Taken(pool[1..k]))
    requires |els'| == |els| && forall u: nat :: u < |els| && u != pool[0] && u in pool[..k] ==> els'[u] == els[u]
    ensures AllBelow(els', vs, n, Taken(pool[1..k])) && Forest(els', vs, n) == Forest(els, vs, n)
    ensures NodesOf(els', vs, n) == NodesOf(els, vs, n)
  {
    forall u: nat | u < |els| && u in Taken(pool[1..k]) ensures els'[u] == els[u] {
      var j :| 0 <= j < k - 1 && pool[1..k][j] == u;
      assert pool[..k][j + 1] == u;
    }
    SameForest(els, els', vs, n, Taken(pool[1..k]));
  }

  lemma CopyPlain(els0: seq<seq<Value>>, els: seq<seq<Value>>, els': seq<seq<Value>>, o: nat, n: nat, pool: seq<nat>,
                  done: seq<Value>, i: nat, k: nat, s: iset<nat>)
    requires Copying(els0, els, o, n, pool, done, i, k) && Separate(pool, s) && i < |els0[o]| && !IsArray(els0[o][i])
    requires els' == els[pool[0] := els[pool[0]][i := els0[o][i]]]
    ensures Copying(els0, els', o, n, pool, done + [els0[o][i]], i + 1, k)
  {
    var v := els0[o][i];
    OneMore(done, |els0[o]| - i, v);
    WriteApart(els, els', pool, k, done, n - 1, s);
    ForestMore(els0, els0[o], n - 1, i);
    ForestAppend(els', done, n - 1, v);
    assert pool[..k][0] == pool[0];
  }

  /** The array found in the array is as it was at the start, and there are enough cells for it. */
  lemma ChildReady(els0: seq<seq<Value>>, els: seq<seq<Value>>, o: nat, n: nat, pool: seq<nat>,
                   done: seq<Value>, i: nat, k: nat, s: iset<nat>)
    requires Copying(els0, els, o, n, pool, done, i, k) && Source(els0, o, n, pool, s)
    requires i < |els0[o]| && IsArray(els0[o][i])
    ensures var u := els0[o][i].oref.value;
            && Finite(els, u, n - 1) && u in s
            && Unfold(els, u, n - 1) == Unfold(els0, u, n - 1) && |Nodes(els, u, n - 1)| == |Nodes(els0, u, n - 1)|
            && k + |Nodes(els, u, n - 1)| <= |pool|
  {
    var v := els0[o][i];
    Narrow(els0, o, n, s);
    assert v in els0[o];
    forall u: nat | u < |els| && u in s ensures els0[u] == els[u] {
      assert u !in pool[..k];
    }
    SameBelow(els0, els, v.oref.value, n - 1, s);
    assert Finite(els0, v.oref.value, n - 1);
    Indexed(els, v.oref.value, n - 1, s);
    ForestMore(els0, els0[o], n - 1, i);
    NodesPrefix(els0, els0[o], n - 1, i + 1);
  }

  lemma {:induction false} Indexed(els: seq<seq<Value>>, o: nat, n: nat, s: iset<nat>)
    requires Below(els, o, n, s)
    ensures Finite(els, o, n)
    decreases n
  {
    forall v | v in els[o] && IsArray(v) ensures Below(els, v.oref.value, n - 1, Indices(els)) {
      Indexed(els, v.oref.value, n - 1, s);
    }
  }

  lemma CopyArray(els0: seq<seq<Value>>, els: seq<seq<Value>>, mid: seq<seq<Value>>, els': seq<seq<Value>>, o: nat, n: nat,
                  pool: seq<nat>, done: seq<Value>, i: nat, k: nat, j: nat, s: iset<nat>)
    requires Copying(els0, els, o, n, pool, done, i, k) && Source(els0, o, n, pool, s)
    requires i < |els0[o]| && IsArray(els0[o][i])
    requires Copied(els, mid, els0[o][i].oref.value, n - 1, pool[k..], j)
    requires pool[0] < |mid| && |mid[pool[0]]| > i
    requires els' == mid[pool[0] := mid[pool[0]][i := Container(Kind.Array, Some(pool[k]))]]
    ensures Copying(els0, els', o, n, pool, done + [Container(Kind.Array, Some(pool[k]))], i + 1, k + j)
  {
    var v, w := els0[o][i], Container(Kind.Array, Some(pool[k]));
    ChildReady(els0, els, o, n, pool, done, i, k, s);
    PoolCut(pool, k, j, s);
    OneMore(done, |els0[o]| - i, w);
    assert mid[pool[0]] == els[pool[0]];
    WriteApart(els, els', pool, k, done, n - 1, s);
    SameBelow(mid, els', pool[k], n - 1, Taken(pool[k..][..j]));
    ForestMore(els0, els0[o], n - 1, i);
    ForestAppend(els', done, n - 1, w);
    OneMoreBelow(els', done, w, n - 1, pool, k, j);
  }

  lemma OneMoreBelow(els: seq<seq<Value>>, done: seq<Value>, w: Value, n: nat, pool: seq<nat>, k: nat, j: nat)
    requires 0 < k && k + j <= |pool| && pool[1..k + j] == pool[1..k] + pool[k..][..j] && IsArray(w)
    requires AllBelow(els, done, n, Taken(pool[1..k])) && Below(els, w.oref.value, n, Taken(pool[k..][..j]))
    ensures AllBelow(els, done + [w], n, Taken(pool[1..k + j]))
  {
    hide Below;
    forall x | x in done + [w] && IsArray(x) ensures Below(els, x.oref.value, n, Taken(pool[1..k + j])) {
      if x in done {
        Widen(els, x.oref.value, n, Taken(pool[1..k]), Taken(pool[1..k + j]));
      } else {
        Widen(els, x.oref.value, n, Taken(pool[k..][..j]), Taken(pool[1..k + j]));
      }
    }
  }

  /** The next cells of a pool are apart from those before them. */
  lemma PoolCut(pool: seq<nat>, k: nat, j: nat, s: iset<nat>)
    requires Separate(pool, s) && 0 < k && k + j <= |pool|
    ensures pool[..k + j] == pool[..k] + pool[k..][..j] && pool[1..k + j] == pool[1..k] + pool[k..][..j]
    ensures Separate(pool[k..], s)
    ensures forall u :: u in pool[..k] ==> u !in pool[k..]
    ensures pool[0] in pool[..k]
  {
  }

  lemma CopyDone(els0: seq<seq<Value>>, els: seq<seq<Value>>, o: nat, n: nat, pool: seq<nat>, done: seq<Value>, k: nat)
    requires o < |els0| && Copying(els0, els, o, n, pool, done, |els0[o]|, k)
    ensures Copied(els0, els, o, n, pool, k)
  {
    assert els0[o][..|els0[o]|] == els0[o] && els[pool[0]] == done;
    assert pool[..k][0] == pool[0];
    forall v | v in done && IsArray(v) ensures Below(els, v.oref.value, n - 1, Taken(pool[..k])) {
      Widen(els, v.oref.value, n - 1, Taken(pool[1..k]), Taken(pool[..k]));
    }
  }

  /** A value whose container, if it is one, is in use. */
  ghost predicate Known(used: seq<bool>, v: Value) {
    !v.End? && (v.Container? && v.oref.Some? ==> v.oref.value < |used| && used[v.oref.value])
  }

  ghost predicate AllKnown(els: seq<seq<Value>>, used: seq<bool>) {
    forall o, v :: 0 <= o < |els| && v in els[o] ==> Known(used, v)
  }

  /** Everything the arrays and the stack mention is in use. */
  ghost predicate Closed(rt: Runtime)
    reads rt
  {
    rt.Valid() && AllKnown(All(rt.Memory()), rt.used) && forall v :: v in rt.stack ==> Known(rt.used, v)
  }

  lemma KnownMentions(els: seq<seq<Value>>, used: seq<bool>)
    requires AllKnown(els, used)
    ensures Mentions(els, Used(used))
  {
    forall o, v | 0 <= o < |els| && v in els[o] && IsArray(v) ensures v.oref.value in Used(used) {
      assert Known(used, v);
    }
  }

  lemma PoolSeparate(used: seq<bool>, pool: seq<nat>)
    requires Pool(used, pool)
    ensures Separate(pool, Used(used))
  {
  }

  /** All but one array are as they were. */
  lemma AllBut(st: Store, st': Store, c: nat)
    requires Owned(st) && Owned(st') && |st.ptr| == |st'.ptr| && c < |st.ptr|
    requires forall u: nat :: u < |st.ptr| && u != c ==> Elements(st', u) == Elements(st, u)
    ensures All(st') == All(st)[c := Elements(st', c)]
  {
  }

  lemma KnownWritten(els: seq<seq<Value>>, used: seq<bool>, c: nat, i: nat, v: Value)
    requires AllKnown(els, used) && Known(used, v) && c < |els| && i < |els[c]|
    ensures AllKnown(els[c := els[c][i := v]], used)
  {
    var els' := els[c := els[c][i := v]];
    forall o, x | 0 <= o < |els| && x in els'[o] ensures Known(used, x) {
      if x !in els[o] { assert x == v; }
    }
  }

  lemma KnownFresh(els: seq<seq<Value>>, used: seq<bool>, c: nat, len: nat)
    requires AllKnown(els, used) && c < |els| && c < |used|
    ensures AllKnown(els[c := seq(len, _ => Nil)], used[c := true])
    ensures forall v :: Known(used, v) ==> Known(used[c := true], v)
  {
    var els' := els[c := seq(len, _ => Nil)];
    forall v | Known(used, v) ensures Known(used[c := true], v) {}
    forall o, v | 0 <= o < |els| && v in els'[o] ensures Known(used[c := true], v) {
      if o == c {
        assert v == Nil;
      } else {
        assert v in els[o] && Known(used, v);
      }
    }
  }

  /** A store to a cell of c. */
  method Put(rt: Runtime, c: nat, i: nat, v: Value)
    requires Closed(rt) && c < |rt.ptr| && i < |rt.Array(c)| && Known(rt.used, v)
    modifies rt`mem, rt`length
    ensures Closed(rt) && |rt.ptr| == old(|rt.ptr|)
    ensures All(rt.Memory()) == old(All(rt.Memory()))[c := old(rt.Array(c))[i := v]]
  {
    ghost var st := rt.Memory();
    hide Owned, AllKnown, Known, Elements;
    KnownWritten(All(st), rt.used, c, i, v);
    NotEnd(rt.used, v);
    rt.Write(c, i, v);
    AllBut(st, rt.Memory(), c);
  }

  lemma NotEnd(used: seq<bool>, v: Value)
    requires Known(used, v)
    ensures !v.End?
  {
  }

  /** array0 from the front of the pool. */
  method Blank(rt: Runtime, c: nat, len: nat)
    requires Closed(rt) && c < |rt.used| && !rt.used[c]
    modifies rt
    ensures Closed(rt) && |rt.ptr| == old(|rt.ptr|) && rt.stack == old(rt.stack) + [Container(Kind.Array, Some(c))]
    ensures All(rt.Memory()) == All(old(rt.Memory()))[c := seq(len, _ => Nil)]
    ensures rt.used == old(rt.used)[c := true]
  {
    ghost var st := rt.Memory();
    KnownFresh(All(st), rt.used, c, len);
    hide Owned, AllKnown, Elements;
    rt.MakeArray0(len, c);
    AllBut(st, rt.Memory(), c);
  }

  /** The cells of the pool that are left are unused. */
  lemma PoolLeft(was: seq<bool>, used: seq<bool>, pool: seq<nat>, k: nat)
    requires Pool(was, pool) && |used| == |was| && k <= |pool| && Used(used) == Used(was) + Taken(pool[..k])
    ensures Pool(used, pool[k..])
  {
    var left := pool[k..];
    forall i | 0 <= i < |left| ensures left[i] < |used| && !used[left[i]] {
      assert left[i] == pool[k + i] && left[i] !in Used(was);
      assert left[i] !in pool[..k];
      assert left[i] !in Used(used);
    }
  }

  lemma UsedMore(s: iset<nat>, pool: seq<nat>, k: nat, j: nat)
    requires k + j <= |pool|
    ensures s + Taken(pool[..k]) + Taken(pool[k..][..j]) == s + Taken(pool[..k + j])
  {
    assert pool[..k + j] == pool[..k] + pool[k..][..j];
  }

  /** The loop of aclone, in front of element i. */
  ghost predicate HalfWay(rt: Runtime, els0: seq<seq<Value>>, was: seq<bool>, o: nat, n: nat, pool: seq<nat>,
                          done: seq<Value>, i: nat, k: nat)
    reads rt
  {
    && Closed(rt) && |rt.used| == |was| && Pool(was, pool) && Source(els0, o, n, pool, Used(was))
    && Copying(els0, All(rt.Memory()), o, n, pool, done, i, k)
    && Used(rt.used) == Used(was) + Taken(pool[..k])
  }

  /** PUSH. */
  method Push(rt: Runtime, v: Value)
    requires Closed(rt) && Known(rt.used, v)
    modifies rt`stack
    ensures Closed(rt) && rt.stack == old(rt.stack) + [v] && rt.Memory() == old(rt.Memory())
  {
    hide Owned, AllKnown;
    rt.stack := rt.stack + [v];
  }

  /** POP. */
  method Pop(rt: Runtime)
    requires Closed(rt) && |rt.stack| > 0
    modifies rt`stack
    ensures Closed(rt) && rt.stack == old(rt.stack)[..|old(rt.stack)| - 1] && rt.Memory() == old(rt.Memory())
  {
    hide Owned, AllKnown;
    rt.stack := rt.stack[..|rt.stack| - 1];
  }

  lemma ClosedFacts(rt: Runtime)
    requires Closed(rt)
    ensures rt.Valid() && Owned(rt.Memory()) && AllKnown(All(rt.Memory()), rt.used)
    ensures |rt.used| == |rt.ptr| == |All(rt.Memory())|
    ensures forall u: nat :: u < |rt.ptr| ==> rt.Array(u) == All(rt.Memory())[u]
  {
  }

  lemma HalfWayFacts(rt: Runtime, els0: seq<seq<Value>>, was: seq<bool>, o: nat, n: nat, pool: seq<nat>,
                     done: seq<Value>, i: nat, k: nat)
    requires HalfWay(rt, els0, was, o, n, pool, done, i, k)
    ensures Closed(rt) && Source(els0, o, n, pool, Used(was)) && Separate(pool, Used(was)) && n > 0
    ensures 0 < k <= |pool| && Pool(rt.used, pool[k..]) && rt.Valid() && Owned(rt.Memory())
    ensures Copying(els0, All(rt.Memory()), o, n, pool, done, i, k)
    ensures |rt.used| == |was| && Pool(was, pool) && Used(rt.used) == Used(was) + Taken(pool[..k])
    ensures o < |rt.ptr| == |els0| && rt.Array(o) == els0[o]
    ensures pool[0] < |rt.ptr| && |rt.Array(pool[0])| == |els0[o]|
    ensures forall j :: 0 <= j < |els0[o]| ==> Known(rt.used, els0[o][j])
  {
    ClosedFacts(rt);
    PoolLeft(was, rt.used, pool, k);
    var els := All(rt.Memory());
    assert o !in pool[..k] && els[o] == els0[o];
    forall j | 0 <= j < |els0[o]| ensures Known(rt.used, els0[o][j]) { assert els0[o][j] in els[o]; }
  }

  lemma HalfWayOn(rt: Runtime, els0: seq<seq<Value>>, was: seq<bool>, o: nat, n: nat, pool: seq<nat>,
                  done: seq<Value>, i: nat, k: nat)
    requires Closed(rt) && |rt.used| == |was| && Pool(was, pool) && Source(els0, o, n, pool, Used(was))
    requires Copying(els0, All(rt.Memory()), o, n, pool, done, i, k) && Used(rt.used) == Used(was) + Taken(pool[..k])
    ensures HalfWay(rt, els0, was, o, n, pool, done, i, k) && 0 < k <= |pool|
  {
  }

  /** The loop body of aclone. */
  method CopyElement(rt: Runtime, ghost els0: seq<seq<Value>>, ghost was: seq<bool>, o: nat, c: nat, ghost n: nat,
                     ghost pool: seq<nat>, rest: seq<nat>, ghost done: seq<Value>, i: nat, ghost k: nat)
    returns (left: seq<nat>, ghost done': seq<Value>, ghost k': nat)
    requires HalfWay(rt, els0, was, o, n, pool, done, i, k) && o < |els0| && i < |els0[o]| && 0 < k <= |pool|
    requires rest == pool[k..] && c == pool[0]
    modifies rt
    ensures HalfWay(rt, els0, was, o, n, pool, done', i + 1, k') && 0 < k' <= |pool|
    ensures left == pool[k'..] && rt.stack == old(rt.stack)
    decreases n, 1
  {
    hide *;
    HalfWayFacts(rt, els0, was, o, n, pool, done, i, k);
    ClosedFacts(rt);
    ghost var els := All(rt.Memory());
    var v := rt.Read(o, i);
    if IsArray(v) {
      left, done', k' := CopyInner(rt, els0, was, o, c, n, pool, rest, done, i, k, v);
    } else {
      Put(rt, c, i, v);
      ClosedFacts(rt);
      left := rest;
      CopyPlain(els0, els, All(rt.Memory()), o, n, pool, done, i, k, Used(was));
      done', k' := done + [v], k;
      HalfWayOn(rt, els0, was, o, n, pool, done', i + 1, k');
    }
  }

  method CopyInner(rt: Runtime, ghost els0: seq<seq<Value>>, ghost was: seq<bool>, o: nat, c: nat, ghost n: nat,
                   ghost pool: seq<nat>, rest: seq<nat>, ghost done: seq<Value>, i: nat, ghost k: nat, v: Value)
    returns (left: seq<nat>, ghost done': seq<Value>, ghost k': nat)
    requires HalfWay(rt, els0, was, o, n, pool, done, i, k) && o < |els0| && i < |els0[o]| && 0 < k <= |pool|
    requires rest == pool[k..] && c == pool[0] && v == els0[o][i] && IsArray(v)
    modifies rt
    ensures HalfWay(rt, els0, was, o, n, pool, done', i + 1, k') && 0 < k' <= |pool|
    ensures left == pool[k'..] && rt.stack == old(rt.stack)
    decreases n, 0
  {
    hide *;
    HalfWayFacts(rt, els0, was, o, n, pool, done, i, k);
    ghost var els := All(rt.Memory());
    ChildReady(els0, els, o, n, pool, done, i, k, Used(was));
    ArrayIs(v);
    ghost var j := |Nodes(els, v.oref.value, n - 1)|;
    Push(rt, v);
    Top(rt.stack, v);
    ClosedFacts(rt);
    var r;
    r, left := Aclone(rt, 1, rest, n - 1);
    var w := rt.stack[|rt.stack| - 1];
    ClosedFacts(rt);
    ghost var mid := All(rt.Memory());
    CopiedApart(els, mid, v.oref.value, n - 1, pool, k, j, Used(was), rt.used);
    Put(rt, c, i, w);
    Pop(rt);
    ClosedFacts(rt);
    CopyArray(els0, els, mid, All(rt.Memory()), o, n, pool, done, i, k, j, Used(was));
    done', k' := done + [w], k + j;
    UsedMore(Used(was), pool, k, j);
    HalfWayOn(rt, els0, was, o, n, pool, done', i + 1, k');
  }

  lemma ArrayIs(v: Value)
    requires IsArray(v)
    ensures v.Container? && v.oref.Some?
  {
  }

  /** The inner copy is in use, and has not touched the outer one. */
  lemma CopiedApart(els: seq<seq<Value>>, mid: seq<seq<Value>>, o: nat, n: nat, pool: seq<nat>, k: nat, j: nat,
                    s: iset<nat>, used: seq<bool>)
    requires 0 < k <= |pool| && Separate(pool, s) && Copied(els, mid, o, n, pool[k..], j) && pool[0] < |els|
    requires forall u :: u in Taken(pool[k..][..j]) ==> u in Used(used)
    ensures |mid| == |els| && mid[pool[0]] == els[pool[0]] && k < k + j <= |pool|
    ensures Known(used, Container(Kind.Array, Some(pool[k])))
    ensures pool[k..][j..] == pool[k + j..] && pool[k..][0] == pool[k]
  {
    PoolCut(pool, k, j, s);
    assert pool[k..][..j][0] == pool[k];
    assert pool[k] in Taken(pool[k..][..j]);
  }

  lemma Top(stack: seq<Value>, v: Value)
    requires |stack| > 0 && stack[|stack| - 1] == v
    ensures Arguments(stack, 1, 1) == [v]
  {
  }

  /** aclone(a): a copy of a and of all arrays in it. pool holds the cells that oref_new will hand out; as many are
      taken as there are arrays in a, counted as often as they occur. */
  method Aclone(rt: Runtime, argno: nat, pool: seq<nat>, ghost n: nat) returns (r: Outcome, rest: seq<nat>)
    requires Closed(rt) && argno <= |rt.stack| && Pool(rt.used, pool)
    requires var a := if argno > 0 then rt.stack[|rt.stack| - argno] else Nil;
             IsArray(a) ==>
               Finite(All(rt.Memory()), a.oref.value, n) && |Nodes(All(rt.Memory()), a.oref.value, n)| <= |pool|
    modifies rt
    ensures Closed(rt) && |rt.ptr| == old(|rt.ptr|)
    ensures var a := if argno > 0 then old(rt.stack)[|old(rt.stack)| - argno] else Nil;
            if IsArray(a) then
              var k := |Nodes(All(old(rt.Memory())), a.oref.value, n)|;
              && r == Done && 0 < k <= |pool| && rest == pool[k..]
              && Copied(All(old(rt.Memory())), All(rt.Memory()), a.oref.value, n, pool, k)
              && rt.stack == old(rt.stack)[..|old(rt.stack)| - argno] + [Container(Kind.Array, Some(pool[0]))]
              && Used(rt.used) == Used(old(rt.used)) + Taken(pool[..k])
            else
              && r == ArgumentError && rest == pool && rt.Memory() == old(rt.Memory()) && rt.used == old(rt.used)
              && rt.stack == old(rt.stack)[..|old(rt.stack)| - argno] + [a]
    decreases n, 2
  {
    hide *;
    var base, args := |rt.stack| - argno, Arguments(rt.stack, argno, 1);
    ArgumentKnown(rt, argno);
    Replace(rt, base, args[0]);
    if !IsArray(args[0]) {
      return ArgumentError, pool;
    }
    ArrayIs(args[0]);
    ClosedFacts(rt);
    var o := args[0].oref.value;
    ghost var els0, was := All(rt.Memory()), rt.used;
    Begin(els0, was, o, n, pool);
    var c := pool[0];
    var len, room := rt.Extent(o);
    Blank(rt, c, len);
    ClosedFacts(rt);
    CopyStart(els0, All(rt.Memory()), o, n, pool);
    UsedFirst(was, pool);
    HalfWayOn(rt, els0, was, o, n, pool, [], 0, 1);
    rest := pool[1..];
    ghost var stack, done, k := rt.stack, [], 1;
    var i := 0;
    while i < len
      invariant i <= len == |els0[o]| && 0 < k <= |pool| && HalfWay(rt, els0, was, o, n, pool, done, i, k)
      invariant rest == pool[k..] && rt.stack == stack
    {
      rest, done, k := CopyElement(rt, els0, was, o, c, n, pool, rest, done, i, k);
      i := i + 1;
    }
    HalfWayFacts(rt, els0, was, o, n, pool, done, i, k);
    CopyDone(els0, All(rt.Memory()), o, n, pool, done, k);
    CopiedSize(els0, All(rt.Memory()), o, n, pool, k);
    assert rt.stack[base + 1] == Container(Kind.Array, Some(c));
    assert rt.stack[..|rt.stack| - 1][..base] == old(rt.stack)[..base];
    ClosedFacts(rt);
    Replace(rt, base, rt.stack[base + 1]);
    r := Done;
  }

  /** The stack is cut at base, and v is its new top. */
  method Replace(rt: Runtime, base: nat, v: Value)
    requires Closed(rt) && base <= |rt.stack| && Known(rt.used, v)
    modifies rt`stack
    ensures Closed(rt) && rt.stack == old(rt.stack)[..base] + [v] && rt.Memory() == old(rt.Memory())
  {
    hide Owned, AllKnown;
    rt.stack := rt.stack[..base] + [v];
  }

  lemma UsedFirst(was: seq<bool>, pool: seq<nat>)
    requires pool != [] && pool[0] < |was|
    ensures Used(was[pool[0] := true]) == Used(was) + Taken(pool[..1])
  {
  }

  lemma CopiedSize(els: seq<seq<Value>>, els': seq<seq<Value>>, o: nat, n: nat, pool: seq<nat>, k: nat)
    requires Copied(els, els', o, n, pool, k)
    ensures k == |Nodes(els, o, n)|
  {
  }

  lemma ArgumentKnown(rt: Runtime, argno: nat)
    requires Closed(rt) && argno <= |rt.stack|
    ensures var a := Arguments(rt.stack, argno, 1)[0];
            Known(rt.used, a) && (IsArray(a) ==> a.oref.value < |rt.used| && rt.used[a.oref.value])
  {
    ArgumentsTyped(rt.stack, argno, 1);
  }

  lemma Begin(els0: seq<seq<Value>>, was: seq<bool>, o: nat, n: nat, pool: seq<nat>)
    requires AllKnown(els0, was) && Finite(els0, o, n) && o < |was| && was[o]
    requires Pool(was, pool) && |Nodes(els0, o, n)| <= |pool|
    ensures Source(els0, o, n, pool, Used(was)) && |pool| > 0 && n > 0 && o < |els0|
    ensures pool[0] < |was| && !was[pool[0]]
  {
    KnownMentions(els0, was);
    PoolSeparate(was, pool);
  }
}
