/** From partitions to class numbers: cre8ecs and ccl2ecl (setup/setup-flex/ecs.c), and the partition flex
    starts from (setup/setup-flex/main.c). */
module EcNumbers {
  import opened Chains
  import opened Ecs

  /** The loop of set_up_initial_allocations' caller: one chain with every character on it. */
  method SingleChain(csize: nat, fwd: array<int>, bck: array<int>)
    requires csize >= 1 && fwd != bck && fwd.Length > csize && bck.Length > csize
    modifies fwd, bck
    ensures Linked(fwd[..], bck[..], csize)
    ensures forall i, j :: 1 <= i <= csize && 1 <= j <= csize ==> Together(bck[..], i, j)
  {
    bck[1] := NIL;
    var i := 2;
    while i <= csize
      invariant 2 <= i <= csize + 1
      invariant forall k :: 1 <= k < i ==> bck[k] == k - 1
      invariant forall k :: 1 <= k < i - 1 ==> fwd[k] == k + 1
    {
      bck[i] := i - 1;
      fwd[i - 1] := i;
      i := i + 1;
    }
    fwd[csize] := NIL;
    forall k | 1 <= k <= csize ensures Head(bck[..], k) == 1 {
      OneHead(bck[..], csize, k);
    }
  }

  lemma {:induction false} OneHead(bck: seq<int>, n: nat, k: int)
    requires |bck| > n && 1 <= k <= n && forall i :: 1 <= i <= n ==> bck[i] == i - 1
    ensures Head(bck, k) == 1
    decreases k
  {
    if k > 1 {
      OneHead(bck, n, k - 1);
    }
  }

  /** A history of registrations: bcks[k + 1] refines bcks[k] by the set ss[k]. */
  ghost predicate Registered(bcks: seq<seq<int>>, ss: seq<set<int>>, n: nat) {
    && |bcks| == |ss| + 1
    && (forall i, j :: 1 <= i <= n && 1 <= j <= n ==> Together(bcks[0], i, j))
    && forall k :: 0 <= k < |ss| ==> Refines(bcks[k + 1], bcks[k], n, ss[k])
  }

  ghost predicate SameSets(ss: seq<set<int>>, i: int, j: int) {
    forall k :: 0 <= k < |ss| ==> (i in ss[k] <==> j in ss[k])
  }

  /** After any sequence of mkechar and mkeccl calls on the single chain, two characters are together exactly
      when they belong to the same registered sets. */
  lemma {:induction false} TogetherIffSameSets(bcks: seq<seq<int>>, ss: seq<set<int>>, n: nat, i: int, j: int)
    requires Registered(bcks, ss, n) && 1 <= i <= n && 1 <= j <= n
    ensures Together(bcks[|ss|], i, j) <==> SameSets(ss, i, j)
    decreases |ss|
  {
    if |ss| > 0 {
      var m := |ss| - 1;
      TogetherIffSameSets(bcks[..m + 1], ss[..m], n, i, j);
      assert Refines(bcks[m + 1], bcks[m], n, ss[m]);
      assert SameSets(ss, i, j) <==> SameSets(ss[..m], i, j) && (i in ss[m] <==> j in ss[m]) by {
        assert forall k :: 0 <= k < m ==> ss[..m][k] == ss[k];
      }
    }
  }

  // ----- cre8ecs -----

  /** How many chains have their head at or in front of h. */
  ghost function Rank(bck: seq<int>, h: int): (r: nat)
    requires h < |bck|
    ensures h >= 0 ==> r <= h
    decreases h
  {
    if h <= 0 then 0 else Rank(bck, h - 1) + (if bck[h] == NIL then 1 else 0)
  }

  lemma {:induction false} RankGrows(bck: seq<int>, g: int, h: int)
    requires 0 <= g <= h < |bck|
    ensures Rank(bck, g) <= Rank(bck, h)
    ensures g < h && bck[h] == NIL ==> Rank(bck, g) < Rank(bck, h)
    decreases h
  {
    if g < h {
      RankGrows(bck, g, h - 1);
    }
  }

  /** The number of member k: that of its chain's head, negative unless k is the head. */
  ghost function Number(bck: seq<int>, k: int): int
    requires 1 <= k < |bck|
  {
    var r: int := Rank(bck, Head(bck, k));
    if bck[k] == NIL then r else -r
  }

  lemma HeadIsHead(bck: seq<int>, n: nat, fwd: seq<int>, k: int)
    requires Linked(fwd, bck, n) && 1 <= k <= n
    ensures bck[Head(bck, k)] == NIL && (Head(bck, k) == k <==> bck[k] == NIL)
    decreases k
  {
    if bck[k] != NIL {
      HeadIsHead(bck, n, fwd, bck[k]);
    }
  }

  /** Numbers tell chains apart. */
  lemma NumbersSeparate(fwd: seq<int>, bck: seq<int>, n: nat, i: int, j: int)
    requires Linked(fwd, bck, n) && 1 <= i <= n && 1 <= j <= n
    ensures Abs(Number(bck, i)) == Abs(Number(bck, j)) <==> Together(bck, i, j)
    ensures 1 <= Abs(Number(bck, i)) <= Rank(bck, n)
    ensures Number(bck, i) > 0 <==> bck[i] == NIL
    ensures Number(bck, i) > 0 && Number(bck, j) > 0 && i < j ==> Number(bck, i) < Number(bck, j)
  {
    HeadIsHead(bck, n, fwd, i);
    HeadIsHead(bck, n, fwd, j);
    var g, h := Head(bck, i), Head(bck, j);
    RankGrows(bck, 0, g);
    RankGrows(bck, g, n);
    RankGrows(bck, 0, g - 1);
    if g < h { RankGrows(bck, g, h); } else if h < g { RankGrows(bck, h, g); }
  }

  /** Chains with heads in front of i are numbered, and of the chain of i the members in front of e. */
  ghost predicate Numbered(now: seq<int>, b: seq<int>, num: nat, i: int, e: int) {
    && |now| == |b| > num
    && forall k :: 1 <= k <= num ==> now[k] == if Head(b, k) < i || (Head(b, k) == i && k < e) then Number(b, k) else b[k]
  }

  /** The next chain starts at i only if i is a head. */
  lemma NextHead(now: seq<int>, f: seq<int>, b: seq<int>, num: nat, i: int)
    requires Linked(f, b, num) && Numbered(now, b, num, i, 0) && 1 <= i <= num
    ensures now[i] == NIL <==> b[i] == NIL
    ensures now[i] != NIL ==> Numbered(now, b, num, i + 1, 0) && Rank(b, i) == Rank(b, i - 1)
    ensures now[i] == NIL ==> Rank(b, i) == Rank(b, i - 1) + 1 && Numbered(now[i := Rank(b, i)], b, num, i, i + 1)
  {
    hide Linked, Head, Number, Rank;
    HeadIsHead(b, num, f, i);
    NumbersSeparate(f, b, num, i, i);
    RankMore(b, num, i);
    if b[i] != NIL {
      forall k | 1 <= k <= num ensures Head(b, k) != i {
        HeadIsHead(b, num, f, k);
      }
    }
  }

  lemma RankMore(b: seq<int>, num: nat, i: int)
    requires 1 <= i <= num < |b|
    ensures Rank(b, i) == Rank(b, i - 1) + if b[i] == NIL then 1 else 0
    ensures b[i] == NIL ==> Number(b, i) == Rank(b, i) && Head(b, i) == i
  {
  }

  lemma NextMember(now: seq<int>, f: seq<int>, b: seq<int>, num: nat, i: int, j: int)
    requires Linked(f, b, num) && 1 <= i < j <= num && Head(b, j) == i && Numbered(now, b, num, i, j)
    ensures f[j] == NIL || (j < f[j] <= num && Head(b, f[j]) == i)
    ensures Number(b, j) == -(Rank(b, i) as int)
    ensures Numbered(now[j := Number(b, j)], b, num, i, if f[j] == NIL then num + 1 else f[j])
  {
    HeadIsHead(b, num, f, j);
    forall k | 1 <= k <= num && Head(b, k) == i && j < k ensures f[j] != NIL && f[j] <= k {
      SameChainOrder(f, b, num, j, k);
    }
    if f[j] != NIL { NextTogether(f, b, num, j); }
  }

  lemma FirstMember(f: seq<int>, b: seq<int>, now: seq<int>, num: nat, i: int)
    requires Linked(f, b, num) && 1 <= i <= num && b[i] == NIL && Numbered(now, b, num, i, i + 1)
    ensures f[i] == NIL || (i < f[i] <= num && Head(b, f[i]) == i)
    ensures Numbered(now, b, num, i, if f[i] == NIL then num + 1 else f[i])
  {
    HeadIsHead(b, num, f, i);
    forall k | 1 <= k <= num && Head(b, k) == i && i < k ensures f[i] != NIL && f[i] <= k {
      SameChainOrder(f, b, num, i, k);
    }
    if f[i] != NIL { NextTogether(f, b, num, i); }
  }

  /** cre8ecs: bck is overwritten with class numbers. */
  method Cre8Ecs(fwd: array<int>, bck: array<int>, num: nat) returns (numcl: nat)
    requires Linked(fwd[..], bck[..], num) && fwd != bck
    modifies bck
    ensures bck.Length > num && numcl == Rank(old(bck[..]), num)
    ensures forall k :: 1 <= k <= num ==> bck[k] == Number(old(bck[..]), k)
  {
    ghost var f, b := fwd[..], bck[..];
    numcl := 0;
    var i := 1;
    FirstNumbered(b, num, f);
    hide Linked, Numbered, Head, Number;
    while i <= num
      invariant 1 <= i <= num + 1 && numcl == Rank(b, i - 1) && bck.Length > num
      invariant Numbered(bck[..], b, num, i, 0)
    {
      NextHead(bck[..], f, b, num, i);
      if bck[i] == NIL {
        numcl := numcl + 1;
        bck[i] := numcl;
        NumberChain(fwd, bck, num, i, numcl, b);
      }
      i := i + 1;
    }
    AllNumbered(bck[..], b, num);
  }

  lemma FirstNumbered(b: seq<int>, num: nat, f: seq<int>)
    requires Linked(f, b, num)
    ensures |b| > num && Numbered(b, b, num, 1, 0)
  {
    forall k | 1 <= k <= num ensures Head(b, k) >= 1 {}
  }

  lemma AllNumbered(now: seq<int>, b: seq<int>, num: nat)
    requires Numbered(now, b, num, num + 1, 0)
    ensures forall k :: 1 <= k <= num ==> now[k] == Number(b, k)
  {
    forall k | 1 <= k <= num ensures Head(b, k) <= k {}
  }

  /** The inner loop: the members behind head i get the negated number. */
  method NumberChain(fwd: array<int>, bck: array<int>, num: nat, i: int, numcl: nat, ghost b: seq<int>)
    requires Linked(fwd[..], b, num) && fwd != bck && bck.Length > num && 1 <= i <= num && b[i] == NIL
    requires numcl == Rank(b, i) && Numbered(bck[..], b, num, i, i + 1)
    modifies bck
    ensures Numbered(bck[..], b, num, i + 1, 0)
  {
    ghost var f := fwd[..];
    FirstMember(f, b, bck[..], num, i);
    var j := fwd[i];
    while j != NIL
      invariant 0 <= j <= num && (j != NIL ==> j > i && Head(b, j) == i)
      invariant Numbered(bck[..], b, num, i, if j == NIL then num + 1 else j)
      decreases if j == NIL then 0 else num + 1 - j
    {
      hide Numbered, Linked;
      NextMember(bck[..], f, b, num, i, j);
      bck[j] := -(numcl as int);
      j := fwd[j];
    }
  }

  // ----- ccl2ecl -----

  /** A store to ccltbl, whose elements are unsigned characters. */
  function Stored(x: int): int { x % 256 }

  /** The numbers of the representatives among the members, in order. */
  function Representatives(seg: seq<int>, ec: seq<int>): (r: seq<int>)
    ensures |r| <= |seg|
    decreases |seg|
  {
    if seg == [] then []
    else
      var c := seg[|seg| - 1];
      var front := Representatives(seg[..|seg| - 1], ec);
      if 0 <= c < |ec| && ec[c] > 0 then front + [Stored(ec[c])] else front
  }

  lemma RepresentativesMore(seg: seq<int>, ec: seq<int>, k: nat)
    requires k < |seg|
    ensures Representatives(seg[..k + 1], ec) ==
            Representatives(seg[..k], ec) + if 0 <= seg[k] < |ec| && ec[seg[k]] > 0 then [Stored(ec[seg[k]])] else []
  {
    assert seg[..k + 1][..k] == seg[..k];
  }

  /** The inner loop of ccl2ecl: one class is rewritten in place. */
  method RewriteClass(ccltbl: array<int>, cclp: nat, len: nat, ecgroup: seq<int>) returns (newlen: nat)
    requires cclp + len <= ccltbl.Length
    requires forall k :: cclp <= k < cclp + len ==> 0 <= ccltbl[k] < |ecgroup|
    modifies ccltbl
    ensures newlen <= len && ccltbl[cclp..cclp + newlen] == Representatives(old(ccltbl[cclp..cclp + len]), ecgroup)
    ensures forall k :: 0 <= k < ccltbl.Length && !(cclp <= k < cclp + len) ==> ccltbl[k] == old(ccltbl[k])
  {
    ghost var seg, rep := ccltbl[cclp..cclp + len], Representatives([], ecgroup);
    assert forall k :: cclp <= k < cclp + len ==> ccltbl[k] == seg[k - cclp];
    hide Representatives, Stored;
    assert seg[..0] == [];
    newlen := 0;
    var ccls := 0;
    while ccls < len
      invariant ccls <= len && newlen <= ccls && |rep| == newlen
      invariant rep == Representatives(seg[..ccls], ecgroup)
      invariant forall t :: 0 <= t < newlen ==> ccltbl[cclp + t] == rep[t]
      invariant forall k :: cclp + ccls <= k < cclp + len ==> ccltbl[k] == seg[k - cclp]
      invariant forall k :: 0 <= k < ccltbl.Length && !(cclp <= k < cclp + len) ==> ccltbl[k] == old(ccltbl[k])
    {
      var ich := ccltbl[cclp + ccls];
      RepresentativesMore(seg, ecgroup, ccls);
      var cclmec := ecgroup[ich];
      if cclmec > 0 {
        ccltbl[cclp + newlen] := Stored(cclmec);
        newlen := newlen + 1;
        rep := rep + [Stored(cclmec)];
      }
      ccls := ccls + 1;
    }
    assert seg[..len] == seg;
    assert ccltbl[cclp..cclp + newlen] == rep;
  }

  function Segment(tbl: seq<int>, at: nat, len: nat): seq<int> {
    if at + len <= |tbl| then tbl[at..at + len] else []
  }

  lemma SegmentKept(tbl: seq<int>, now: seq<int>, at: nat, len: nat, lo: nat, hi: nat)
    requires |now| == |tbl| && (at + len <= lo || hi <= at)
    requires forall k :: 0 <= k < |tbl| && !(lo <= k < hi) ==> now[k] == tbl[k]
    ensures Segment(now, at, len) == Segment(tbl, at, len)
  {
  }

  /** The classes lie one behind the other in a table of the given size. */
  ghost predicate LaidOut(cclmap: seq<nat>, ccllen: seq<nat>, lastccl: nat, size: nat) {
    && |cclmap| > lastccl && |ccllen| > lastccl
    && (forall i :: 1 <= i <= lastccl ==> cclmap[i] + ccllen[i] <= size)
    && (forall i, j :: 1 <= i < j <= lastccl ==> cclmap[i] + ccllen[i] <= cclmap[j])
  }

  /** Classes in front of i are rewritten, the others are as they were. */
  ghost predicate RewrittenTo(now: seq<int>, len: seq<nat>, tbl: seq<int>, len0: seq<nat>,
                              cclmap: seq<nat>, ec: seq<int>, lastccl: nat, i: nat)
    requires LaidOut(cclmap, len0, lastccl, |tbl|) && |len| == |len0|
  {
    && |now| == |tbl|
    && (forall j :: 1 <= j <= lastccl ==> len[j] <= len0[j] && (j >= i ==> len[j] == len0[j]))
    && (forall j :: 1 <= j <= lastccl ==>
          Segment(now, cclmap[j], len[j])
          == if j < i then Representatives(Segment(tbl, cclmap[j], len0[j]), ec) else Segment(tbl, cclmap[j], len0[j]))
  }

  lemma RewriteStep(now: seq<int>, len: seq<nat>, tbl: seq<int>, len0: seq<nat>, cclmap: seq<nat>, ec: seq<int>,
                    lastccl: nat, i: nat, next: seq<int>, newlen: nat)
    requires LaidOut(cclmap, len0, lastccl, |tbl|) && |len| == |len0| && 1 <= i <= lastccl
    requires RewrittenTo(now, len, tbl, len0, cclmap, ec, lastccl, i)
    requires |next| == |now| && newlen <= len[i]
    requires Segment(next, cclmap[i], newlen) == Representatives(Segment(now, cclmap[i], len[i]), ec)
    requires forall k :: 0 <= k < |now| && !(cclmap[i] <= k < cclmap[i] + len[i]) ==> next[k] == now[k]
    ensures RewrittenTo(next, len[i := newlen], tbl, len0, cclmap, ec, lastccl, i + 1)
  {
    forall j | 1 <= j <= lastccl && j != i ensures Segment(next, cclmap[j], len[j]) == Segment(now, cclmap[j], len[j]) {
      SegmentKept(now, next, cclmap[j], len[j], cclmap[i], cclmap[i] + len[i]);
    }
  }

  /** The class rewritten next is still as it was. */
  lemma NextClass(now: seq<int>, len: seq<nat>, tbl: seq<int>, len0: seq<nat>, cclmap: seq<nat>, ec: seq<int>,
                  lastccl: nat, i: nat)
    requires LaidOut(cclmap, len0, lastccl, |tbl|) && |len| == |len0| && 1 <= i <= lastccl
    requires RewrittenTo(now, len, tbl, len0, cclmap, ec, lastccl, i)
    requires forall k :: 0 <= k < |tbl| ==> 0 <= tbl[k] < |ec|
    ensures |cclmap| > lastccl && |len| > lastccl && |now| == |tbl| && cclmap[i] + len[i] <= |now|
    ensures forall k :: cclmap[i] <= k < cclmap[i] + len[i] ==> 0 <= now[k] < |ec|
    ensures forall next, n: nat :: Segment(next, cclmap[i], n) == if cclmap[i] + n <= |next| then next[cclmap[i]..cclmap[i] + n] else []
    ensures Segment(now, cclmap[i], len[i]) == now[cclmap[i]..cclmap[i] + len[i]]
  {
    var s := Segment(now, cclmap[i], len[i]);
    assert s == Segment(tbl, cclmap[i], len[i]);
    forall k | cclmap[i] <= k < cclmap[i] + len[i] ensures 0 <= now[k] < |ec| {
      assert now[k] == s[k - cclmap[i]];
    }
  }

  /** ccl2ecl: every class is rewritten in place; cclmap says where a class starts in ccltbl. Entry 0 of cclmap
      and ccllen is not used. */
  method Ccl2Ecl(ccltbl: array<int>, cclmap: seq<nat>, ccllen: array<nat>, ecgroup: seq<int>, lastccl: nat)
    requires LaidOut(cclmap, ccllen[..], lastccl, ccltbl.Length)
    requires forall k :: 0 <= k < ccltbl.Length ==> 0 <= ccltbl[k] < |ecgroup|
    modifies ccltbl, ccllen
    ensures RewrittenTo(ccltbl[..], ccllen[..], old(ccltbl[..]), old(ccllen[..]), cclmap, ecgroup, lastccl, lastccl + 1)
  {
    ghost var tbl, len0 := ccltbl[..], ccllen[..];
    var i := 1;
    while i <= lastccl
      invariant 1 <= i <= lastccl + 1
      invariant RewrittenTo(ccltbl[..], ccllen[..], tbl, len0, cclmap, ecgroup, lastccl, i)
    {
      hide *;
      ghost var now, len := ccltbl[..], ccllen[..];
      NextClass(now, len, tbl, len0, cclmap, ecgroup, lastccl, i);
      var newlen := RewriteClass(ccltbl, cclmap[i], ccllen[i], ecgroup);
      RewriteStep(now, len, tbl, len0, cclmap, ecgroup, lastccl, i, ccltbl[..], newlen);
      ccllen[i] := newlen;
      assert ccllen[..] == len[i := newlen];
      i := i + 1;
    }
  }

  /** The numbers of the heads among the members. */
  ghost function HeadNumbers(m: seq<int>, b: seq<int>): (r: seq<int>)
    requires forall k :: 0 <= k < |m| ==> 1 <= m[k] < |b|
    decreases |m|
  {
    if m == [] then []
    else
      var c := m[|m| - 1];
      var front := HeadNumbers(m[..|m| - 1], b);
      if b[c] == NIL then front + [Number(b, c)] else front
  }

  ghost predicate IsHeadNumber(m: seq<int>, b: seq<int>, v: int)
    requires forall k :: 0 <= k < |m| ==> 1 <= m[k] < |b|
  {
    exists k :: 0 <= k < |m| && b[m[k]] == NIL && v == Number(b, m[k])
  }

  lemma OneMoreHead(m: seq<int>, b: seq<int>, v: int)
    requires (forall k :: 0 <= k < |m| ==> 1 <= m[k] < |b|) && m != []
    ensures var c := m[|m| - 1];
            IsHeadNumber(m, b, v) <==> IsHeadNumber(m[..|m| - 1], b, v) || (b[c] == NIL && v == Number(b, c))
  {
    hide Number;
    var front := m[..|m| - 1];
    if j :| 0 <= j < |front| && b[front[j]] == NIL && v == Number(b, front[j]) {
      assert m[j] == front[j];
    }
    if j :| 0 <= j < |m| && b[m[j]] == NIL && v == Number(b, m[j]) {
      if j < |front| { assert front[j] == m[j]; }
    }
  }

  lemma HeadNumberBelow(fwd: seq<int>, b: seq<int>, n: nat, m: seq<int>, c: int, v: int)
    requires Linked(fwd, b, n) && (forall k :: 0 <= k < |m| ==> 1 <= m[k] < c) && 1 <= c <= n < |b|
    requires IsHeadNumber(m, b, v) && b[c] == NIL
    ensures v < Number(b, c)
  {
    hide Linked, Number;
    var j :| 0 <= j < |m| && b[m[j]] == NIL && v == Number(b, m[j]);
    NumbersSeparate(fwd, b, n, m[j], c);
    NumbersSeparate(fwd, b, n, c, c);
  }

  lemma {:induction false} HeadNumbersOf(fwd: seq<int>, b: seq<int>, n: nat, m: seq<int>)
    requires Linked(fwd, b, n) && Ascending(m, n)
    ensures forall v :: v in HeadNumbers(m, b) <==> IsHeadNumber(m, b, v)
    ensures Ascending(HeadNumbers(m, b), Rank(b, n))
    decreases |m|
  {
    if m != [] {
      assert n < |b|;
      hide Linked, Number, Rank;
      var c, front := m[|m| - 1], m[..|m| - 1];
      HeadNumbersOf(fwd, b, n, front);
      forall v ensures v in HeadNumbers(m, b) <==> IsHeadNumber(m, b, v) { OneMoreHead(m, b, v); }
      if b[c] == NIL {
        var r := HeadNumbers(front, b);
        NumbersSeparate(fwd, b, n, c, c);
        forall t | 0 <= t < |r| ensures r[t] < Number(b, c) {
          assert r[t] in r;
          HeadNumberBelow(fwd, b, n, front, c, r[t]);
        }
        assert HeadNumbers(m, b) == r + [Number(b, c)];
      }
    }
  }

  /** The tables as they are once cre8ecs has run and NUL has been given the number of character csize. */
  ghost predicate Numbering(fwd: seq<int>, b: seq<int>, n: nat, ec: seq<int>) {
    && 1 <= n <= 256 && Linked(fwd, b, n) && |ec| == n + 1 && ec[0] == ec[n]
    && forall k :: 1 <= k <= n ==> ec[k] == Number(b, k)
  }

  /** Only character 256 can have number 256, so storing it as 0 and reading 0 as NUL's number loses nothing. */
  lemma StoredMapsBack(fwd: seq<int>, b: seq<int>, n: nat, ec: seq<int>, c: int)
    requires Numbering(fwd, b, n, ec) && 1 <= c <= n && b[c] == NIL
    ensures var x := Stored(Number(b, c)); (if Abs(ec[0]) != 0 && x == 0 then Abs(ec[0]) else x) == Number(b, c)
  {
    NumbersSeparate(fwd, b, n, c, n);
    HeadIsHead(b, n, fwd, c);
    assert Number(b, c) == Rank(b, c) <= c;
  }

  lemma MappedAppend(r: seq<int>, x: int, nul: int)
    ensures Mapped(r + [x], nul) == Mapped(r, nul) + [if nul != 0 && x == 0 then nul else x]
  {
  }

  lemma RepresentativesAppend(front: seq<int>, c: int, ec: seq<int>)
    ensures Representatives(front + [c], ec) ==
            Representatives(front, ec) + if 0 <= c < |ec| && ec[c] > 0 then [Stored(ec[c])] else []
  {
    assert (front + [c])[..|front|] == front;
  }

  lemma HeadNumbersAppend(front: seq<int>, c: int, b: seq<int>)
    requires (forall k :: 0 <= k < |front| ==> 1 <= front[k] < |b|) && 1 <= c < |b|
    ensures HeadNumbers(front + [c], b) == HeadNumbers(front, b) + if b[c] == NIL then [Number(b, c)] else []
  {
    assert (front + [c])[..|front|] == front;
  }

  lemma Nothing(ec: seq<int>, b: seq<int>, nul: int)
    ensures Representatives([], ec) == [] && Mapped([], nul) == [] && HeadNumbers([], b) == []
  {
  }

  lemma MappedInRange(seg: seq<int>, n: nat, b: seq<int>)
    requires 1 <= n < |b| && forall k :: 0 <= k < |seg| ==> 0 <= seg[k] <= n
    ensures forall k :: 0 <= k < |Mapped(seg, n)| ==> 1 <= Mapped(seg, n)[k] < |b|
  {
  }

  /** What ccl2ecl leaves of a class reads back as the numbers of the class's heads. */
  lemma {:induction false} RepresentativesReadBack(fwd: seq<int>, b: seq<int>, n: nat, ec: seq<int>, seg: seq<int>)
    requires Numbering(fwd, b, n, ec) && (forall k :: 0 <= k < |seg| ==> 0 <= seg[k] <= n)
    ensures |b| > n >= 1 && |ec| == n + 1 && forall k :: 0 <= k < |Mapped(seg, n)| ==> 1 <= Mapped(seg, n)[k] < |b|
    ensures Mapped(Representatives(seg, ec), Abs(ec[0])) == HeadNumbers(Mapped(seg, n), b)
    decreases |seg|
  {
    hide *;
    NumberingShape(fwd, b, n, ec);
    MappedInRange(seg, n, b);
    if seg == [] {
      Nothing(ec, b, n);
      Nothing(ec, b, Abs(ec[0]));
    } else {
      var front, c := seg[..|seg| - 1], seg[|seg| - 1];
      RepresentativesReadBack(fwd, b, n, ec, front);
      ReadBackStep(fwd, b, n, ec, c);
      assert seg == front + [c];
      MappedAppend(front, c, n);
      RepresentativesAppend(front, c, ec);
      HeadNumbersAppend(Mapped(front, n), if n != 0 && c == 0 then n else c, b);
      MappedAppend(Representatives(front, ec), Stored(ec[c]), Abs(ec[0]));
      assert Representatives(front, ec) + [] == Representatives(front, ec);
    }
  }

  lemma NumberingShape(fwd: seq<int>, b: seq<int>, n: nat, ec: seq<int>)
    requires Numbering(fwd, b, n, ec)
    ensures |b| > n >= 1 && |ec| == n + 1
  {
  }

  /** A character is kept exactly if it is a head, and its number reads back. */
  lemma ReadBackStep(fwd: seq<int>, b: seq<int>, n: nat, ec: seq<int>, c: int)
    requires Numbering(fwd, b, n, ec) && 0 <= c <= n
    ensures var k, x := if n != 0 && c == 0 then n else c, Stored(ec[c]);
            1 <= k < |b| && (ec[c] > 0 <==> b[k] == NIL)
            && (b[k] == NIL ==> (if Abs(ec[0]) != 0 && x == 0 then Abs(ec[0]) else x) == Number(b, k))
  {
    var k := if c == 0 then n else c;
    assert ec[c] == Number(b, k);
    hide Number;
    NumbersSeparate(fwd, b, n, k, k);
    if b[k] == NIL { StoredMapsBack(fwd, b, n, ec, k); }
  }

  /** A set of characters that the partition does not cut. */
  ghost predicate Uncut(b: seq<int>, n: nat, m: seq<int>) {
    forall i, j :: 1 <= i <= n && 1 <= j <= n && Together(b, i, j) ==> (i in m <==> j in m)
  }

  /** Among the numbers of an uncut set's heads are exactly its members' numbers. */
  lemma HeadNumbersMember(fwd: seq<int>, b: seq<int>, n: nat, m: seq<int>, c: int)
    requires Linked(fwd, b, n) && Ascending(m, n) && Uncut(b, n, m) && 1 <= c <= n
    ensures c in m <==> Abs(Number(b, c)) in HeadNumbers(m, b)
  {
    HeadNumbersOf(fwd, b, n, m);
    var h := Head(b, c);
    HeadIsHead(b, n, fwd, c);
    HeadIsHead(b, n, fwd, h);
    assert Together(b, c, h);
    NumbersSeparate(fwd, b, n, c, h);
    if c in m {
      var k :| 0 <= k < |m| && m[k] == h;
      assert Number(b, m[k]) == Abs(Number(b, c));
    }
    if Abs(Number(b, c)) in HeadNumbers(m, b) {
      var k :| 0 <= k < |m| && b[m[k]] == NIL && Abs(Number(b, c)) == Number(b, m[k]);
      NumbersSeparate(fwd, b, n, c, m[k]);
    }
  }

  /** ccl2ecl keeps membership: a character is in a class exactly when its class number is in the rewritten
      one; and the rewritten class is again ascending. */
  lemma MembershipKept(fwd: seq<int>, b: seq<int>, n: nat, ec: seq<int>, seg: seq<int>, c: int)
    requires Numbering(fwd, b, n, ec) && (forall k :: 0 <= k < |seg| ==> 0 <= seg[k] <= n)
    requires Ascending(Mapped(seg, n), n) && Uncut(b, n, Mapped(seg, n)) && 1 <= c <= n
    ensures c in Mapped(seg, n) <==> Abs(ec[c]) in Mapped(Representatives(seg, ec), Abs(ec[0]))
    ensures Ascending(Mapped(Representatives(seg, ec), Abs(ec[0])), Rank(b, n))
  {
    RepresentativesReadBack(fwd, b, n, ec, seg);
    HeadNumbersMember(fwd, b, n, Mapped(seg, n), c);
    HeadNumbersOf(fwd, b, n, Mapped(seg, n));
  }

  /** A class that has been registered with mkeccl is not cut. */
  lemma RegisteredUncut(bcks: seq<seq<int>>, ss: seq<set<int>>, n: nat, m: seq<int>, k: nat)
    requires Registered(bcks, ss, n) && k < |ss| && ss[k] == Members(m)
    ensures Uncut(bcks[|ss|], n, m)
  {
    forall i, j | 1 <= i <= n && 1 <= j <= n && Together(bcks[|ss|], i, j) ensures i in m <==> j in m {
      TogetherIffSameSets(bcks, ss, n, i, j);
      assert i in ss[k] <==> j in ss[k];
    }
  }

  /** Two characters get the same class number exactly when they belong to the same registered sets. */
  lemma NumbersFollowSets(fwd: seq<int>, bcks: seq<seq<int>>, ss: seq<set<int>>, n: nat, ec: seq<int>, i: int, j: int)
    requires Registered(bcks, ss, n) && Numbering(fwd, bcks[|ss|], n, ec) && 1 <= i <= n && 1 <= j <= n
    ensures Abs(ec[i]) == Abs(ec[j]) <==> SameSets(ss, i, j)
  {
    TogetherIffSameSets(bcks, ss, n, i, j);
    NumbersSeparate(fwd, bcks[|ss|], n, i, j);
  }
}
