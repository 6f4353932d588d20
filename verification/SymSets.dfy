/** symfollowset and sympartition (setup/setup-flex/dfa.c). */
module SymSets {
  import opened Chains
  import opened Ecs
  import opened Nfa

  /** The loops over a class stop at the first member beyond the symbol. */
  method InClass(cc: seq<int>, nul: int, sym: int, ghost n: nat) returns (found: bool)
    requires nul != 0 && Ascending(Mapped(cc, nul), n)
    ensures found <==> sym in Mapped(cc, nul)
  {
    ghost var m := Mapped(cc, nul);
    var j := 0;
    while j < |cc|
      invariant j <= |cc| && forall k :: 0 <= k < j ==> m[k] < sym
    {
      var ch := cc[j];
      if ch == 0 {
        ch := nul;
      }
      if ch > sym {
        forall k | 0 <= k < |m| ensures m[k] != sym {}
        return false;
      }
      if ch == sym {
        assert m[j] == sym;
        return true;
      }
      j := j + 1;
    }
    found := false;
  }

  /** symfollowset. */
  method SymFollowSet(a: Nfa, ds: seq<int>, transsym: int) returns (nset: seq<int>)
    requires WellFormed(a) && StateList(a, ds)
    ensures nset == Follow(a, ds, transsym)
  {
    nset := [];
    var i := 0;
    assert Follow(a, ds[..0], transsym) == [];
    hide Follow, Matches, WellFormed;
    while i < |ds|
      invariant i <= |ds| && nset == Follow(a, ds[..i], transsym)
    {
      FollowMore(a, ds, i, transsym);
      var moves, tsp := Moves(a, ds[i], transsym);
      if moves {
        nset := nset + [tsp];
      }
      i := i + 1;
    }
    assert ds[..|ds|] == ds;
  }

  /** The cases of symfollowset's loop body. */
  method Moves(a: Nfa, ns: int, transsym: int) returns (moves: bool, tsp: int)
    requires WellFormed(a) && IsState(a, ns)
    ensures (moves <==> Matches(a, ns, transsym)) && tsp == a.trans1[ns]
  {
    var sym := a.transchar[ns];
    tsp := a.trans1[ns];
    if sym < 0 {
      var found := InClass(a.ccls[-sym], a.nulEc, transsym, a.numecs);
      moves := if a.cclng[-sym] then !found else found;
    } else if sym == SYM_EPSILON {
      moves := false;
    } else {
      moves := Abs(a.ecgroup[sym]) == transsym;
    }
  }

  /** The states of the list all treat the two symbols alike. */
  ghost predicate Alike(a: Nfa, l: seq<int>, e: int, f: int)
    requires WellFormed(a) && StateList(a, l)
  {
    forall i :: 0 <= i < |l| ==> (Matches(a, l[i], e) <==> Matches(a, l[i], f))
  }

  lemma {:induction false} AlikeFollow(a: Nfa, l: seq<int>, e: int, f: int)
    requires WellFormed(a) && StateList(a, l) && Alike(a, l, e, f)
    ensures Follow(a, l, e) == Follow(a, l, f)
    decreases |l|
  {
    if l != [] {
      AlikeFollow(a, l[..|l| - 1], e, f);
    }
  }

  ghost predicate SomeMatch(a: Nfa, l: seq<int>, e: int)
    requires WellFormed(a) && StateList(a, l)
  {
    exists i :: 0 <= i < |l| && Matches(a, l[i], e)
  }

  lemma {:induction false} NoMatchNoFollow(a: Nfa, l: seq<int>, e: int)
    requires WellFormed(a) && StateList(a, l)
    ensures Follow(a, l, e) != [] <==> SomeMatch(a, l, e)
    decreases |l|
  {
    if l != [] {
      NoMatchNoFollow(a, l[..|l| - 1], e);
      assert forall i :: 0 <= i < |l| - 1 ==> l[..|l| - 1][i] == l[i];
    }
  }

  /** The partition of the symbols separates those that some state of the list treats differently. */
  ghost predicate Separates(a: Nfa, l: seq<int>, bck: seq<int>)
    requires WellFormed(a) && StateList(a, l)
  {
    forall e, f :: 1 <= e <= a.numecs && 1 <= f <= a.numecs && Together(bck, e, f) ==> Alike(a, l, e, f)
  }

  /** Refining by the symbols of one more state; refining by the complement comes to the same. */
  lemma SeparatesMore(a: Nfa, l: seq<int>, x: int, bck: seq<int>, was: seq<int>, s: set<int>)
    requires WellFormed(a) && StateList(a, l) && IsState(a, x) && Separates(a, l, was) && Refines(bck, was, a.numecs, s)
    requires (forall e :: 1 <= e <= a.numecs ==> (e in s <==> Matches(a, x, e)))
             || (forall e :: 1 <= e <= a.numecs ==> (e in s <==> !Matches(a, x, e)))
    ensures StateList(a, l + [x]) && Separates(a, l + [x], bck)
  {
    forall e, f | 1 <= e <= a.numecs && 1 <= f <= a.numecs && Together(bck, e, f) ensures Alike(a, l + [x], e, f) {
      assert Together(was, e, f);
      assert Alike(a, l, e, f);
    }
  }

  lemma SeparatesEpsilon(a: Nfa, l: seq<int>, x: int, bck: seq<int>)
    requires WellFormed(a) && StateList(a, l) && IsState(a, x) && Separates(a, l, bck) && Epsilon(a, x)
    ensures StateList(a, l + [x]) && Separates(a, l + [x], bck)
  {
    forall e, f | 1 <= e <= a.numecs && 1 <= f <= a.numecs && Together(bck, e, f) ensures Alike(a, l + [x], e, f) {
      assert Alike(a, l, e, f);
    }
  }

  /** The symbols of a (possibly negated) class are noted. */
  method NoteClass(m: seq<int>, negated: bool, symlist: array<bool>, numecs: nat)
    requires Ascending(m, numecs) && symlist.Length > numecs
    modifies symlist
    ensures forall e :: 0 <= e < symlist.Length ==>
      symlist[e] == (old(symlist[e]) || (1 <= e <= numecs && ((e in m) != negated)))
  {
    if negated {
      var j := 0;
      var k := 0;
      while k < |m|
        invariant k <= |m| && j == (if k == 0 then 0 else m[k - 1])
        invariant forall e :: 0 <= e < symlist.Length ==> symlist[e] == (old(symlist[e]) || (1 <= e <= j && e !in m))
      {
        var ich := m[k];
        j := j + 1;
        while j < ich
          invariant (if k == 0 then 0 else m[k - 1]) < j <= ich
          invariant forall e :: 0 <= e < symlist.Length ==> symlist[e] == (old(symlist[e]) || (1 <= e < j && e !in m))
        {
          forall t | 0 <= t < |m| ensures m[t] != j {}
          symlist[j] := true;
          j := j + 1;
        }
        k := k + 1;
      }
      j := j + 1;
      while j <= numecs
        invariant (if |m| == 0 then 0 else m[|m| - 1]) < j <= numecs + 1
        invariant forall e :: 0 <= e < symlist.Length ==> symlist[e] == (old(symlist[e]) || (1 <= e < j && e !in m))
      {
        symlist[j] := true;
        j := j + 1;
      }
    } else {
      var k := 0;
      while k < |m|
        invariant k <= |m|
        invariant forall e :: 0 <= e < symlist.Length ==> symlist[e] == (old(symlist[e]) || e in m[..k])
      {
        symlist[m[k]] := true;
        assert m[..k + 1] == m[..k] + [m[k]];
        k := k + 1;
      }
      assert m[..|m|] == m;
    }
  }

  /** Symbols noted so far are those some state of the list has a transition on. */
  ghost predicate Noted(a: Nfa, l: seq<int>, symlist: seq<bool>)
    requires WellFormed(a) && StateList(a, l)
  {
    |symlist| > a.numecs && forall e :: 0 <= e < |symlist| ==> (symlist[e] <==> 1 <= e <= a.numecs && SomeMatch(a, l, e))
  }

  lemma NotedMore(a: Nfa, l: seq<int>, x: int, was: seq<bool>, now: seq<bool>)
    requires WellFormed(a) && StateList(a, l) && IsState(a, x) && Noted(a, l, was) && |now| == |was|
    requires forall e :: 0 <= e < |now| ==> (now[e] <==> was[e] || (1 <= e <= a.numecs && Matches(a, x, e)))
    ensures StateList(a, l + [x]) && Noted(a, l + [x], now)
  {
    forall e ensures SomeMatch(a, l + [x], e) <==> SomeMatch(a, l, e) || Matches(a, x, e) {
      var k := l + [x];
      if i :| 0 <= i < |l| && Matches(a, l[i], e) { assert Matches(a, k[i], e); }
      if Matches(a, x, e) { assert Matches(a, k[|l|], e); }
    }
  }

  /** The chain with all symbols, as sympartition sets it up. */
  method OneChain(n: nat, dupfwd: array<int>, duplist: array<int>)
    requires n >= 1 && dupfwd != duplist && dupfwd.Length > n && duplist.Length > n
    modifies dupfwd, duplist
    ensures Linked(dupfwd[..], duplist[..], n)
  {
    var i := 1;
    while i <= n
      invariant 1 <= i <= n + 1
      invariant forall k :: 1 <= k < i ==> duplist[k] == k - 1 && dupfwd[k] == k + 1
    {
      duplist[i] := i - 1;
      dupfwd[i] := i + 1;
      i := i + 1;
    }
    duplist[1] := NIL;
    dupfwd[n] := NIL;
  }

  /** What sympartition does for a state with a transition on one symbol. */
  method PartitionBySymbol(a: Nfa, ghost l: seq<int>, ns: int, symlist: array<bool>,
                           dupfwd: array<int>, duplist: array<int>, ghost flags: array<bool>)
    requires WellFormed(a) && StateList(a, l) && IsState(a, ns) && 0 <= a.transchar[ns] < a.csize && !Epsilon(a, ns)
    requires dupfwd != duplist && flags != symlist && flags.Length >= CSIZE && (forall t :: 0 <= t < flags.Length ==> !flags[t])
    requires Linked(dupfwd[..], duplist[..], a.numecs) && Separates(a, l, duplist[..]) && Noted(a, l, symlist[..])
    modifies symlist, dupfwd, duplist
    ensures StateList(a, l + [ns]) && (forall t :: 0 <= t < flags.Length ==> !flags[t])
    ensures Linked(dupfwd[..], duplist[..], a.numecs) && Separates(a, l + [ns], duplist[..]) && Noted(a, l + [ns], symlist[..])
  {
    ghost var was, noted := duplist[..], symlist[..];
    var ec := a.ecgroup[a.transchar[ns]];
    NotedLength(a, l, noted);
    hide Linked, Separates, Noted, Refines;
    MkEChar(ec, dupfwd, duplist, a.numecs);
    symlist[ec] := true;
    SeparatesMore(a, l, ns, duplist[..], was, {ec});
    NotedMore(a, l, ns, noted, symlist[..]);
  }

  /** What sympartition does for a state with a transition on a class. */
  method PartitionByClass(a: Nfa, ghost l: seq<int>, ns: int, symlist: array<bool>,
                          dupfwd: array<int>, duplist: array<int>, flags: array<bool>)
    requires WellFormed(a) && StateList(a, l) && IsState(a, ns) && -|a.ccls| < a.transchar[ns] < 0
    requires dupfwd != duplist && flags != symlist && flags.Length >= CSIZE && (forall t :: 0 <= t < flags.Length ==> !flags[t])
    requires Linked(dupfwd[..], duplist[..], a.numecs) && Separates(a, l, duplist[..]) && Noted(a, l, symlist[..])
    modifies symlist, dupfwd, duplist, flags
    ensures StateList(a, l + [ns]) && (forall t :: 0 <= t < flags.Length ==> !flags[t])
    ensures Linked(dupfwd[..], duplist[..], a.numecs) && Separates(a, l + [ns], duplist[..]) && Noted(a, l + [ns], symlist[..])
  {
    ghost var was, noted := duplist[..], symlist[..];
    var c := -a.transchar[ns];
    var m := Mapped(a.ccls[c], a.nulEc);
    NotedLength(a, l, noted);
    hide Linked, Separates, Noted, Refines, Members;
    var over := MkEccl(a.ccls[c], dupfwd, duplist, a.numecs, a.nulEc, flags);
    NoteClass(m, a.cclng[c], symlist, a.numecs);
    SeparatesMore(a, l, ns, duplist[..], was, Members(m));
    NotedMore(a, l, ns, noted, symlist[..]);
  }

  /** One state's share in sympartition. */
  method PartitionBy(a: Nfa, ghost l: seq<int>, ns: int, symlist: array<bool>,
                     dupfwd: array<int>, duplist: array<int>, flags: array<bool>)
    requires WellFormed(a) && StateList(a, l) && IsState(a, ns)
    requires dupfwd != duplist && flags != symlist && flags.Length >= CSIZE && (forall t :: 0 <= t < flags.Length ==> !flags[t])
    requires Linked(dupfwd[..], duplist[..], a.numecs) && Separates(a, l, duplist[..]) && Noted(a, l, symlist[..])
    modifies symlist, dupfwd, duplist, flags
    ensures StateList(a, l + [ns]) && (forall t :: 0 <= t < flags.Length ==> !flags[t])
    ensures Linked(dupfwd[..], duplist[..], a.numecs) && Separates(a, l + [ns], duplist[..]) && Noted(a, l + [ns], symlist[..])
  {
    hide Linked, Separates, Noted;
    var tch := a.transchar[ns];
    if tch != SYM_EPSILON {
      if tch < -(|a.ccls| as int) || tch >= a.csize {
        assert false;
      }
      if tch >= 0 {
        PartitionBySymbol(a, l, ns, symlist, dupfwd, duplist, flags);
      } else {
        PartitionByClass(a, l, ns, symlist, dupfwd, duplist, flags);
      }
    } else {
      SeparatesEpsilon(a, l, ns, duplist[..]);
      NotedMore(a, l, ns, symlist[..], symlist[..]);
    }
  }

  lemma NotedLength(a: Nfa, l: seq<int>, symlist: seq<bool>)
    requires WellFormed(a) && StateList(a, l) && Noted(a, l, symlist)
    ensures |symlist| > a.numecs
  {
  }

  /** sympartition: symbols on one chain are treated alike by every state of the list, and the symbols noted are
      those with a transition. duplist leads from a symbol to an earlier one of its chain. */
  method SymPartition(a: Nfa, ds: seq<int>, symlist: array<bool>, duplist: array<int>)
    requires WellFormed(a) && StateList(a, ds) && symlist.Length > a.numecs && duplist.Length > a.numecs
    requires forall e :: 0 <= e < symlist.Length ==> !symlist[e]
    modifies symlist, duplist
    ensures Separates(a, ds, duplist[..]) && Noted(a, ds, symlist[..])
    ensures forall e :: 1 <= e <= a.numecs ==> duplist[e] == NIL || (1 <= duplist[e] < e && Together(duplist[..], duplist[e], e))
  {
    var dupfwd := new int[a.numecs + 1];
    var flags := new bool[CSIZE](_ => false);
    OneChain(a.numecs, dupfwd, duplist);
    assert Separates(a, [], duplist[..]);
    assert Noted(a, [], symlist[..]);
    assert ds[..0] == [];
    var i := 0;
    while i < |ds|
      invariant i <= |ds| && StateList(a, ds[..i]) && fresh(dupfwd) && fresh(flags)
      invariant forall t :: 0 <= t < flags.Length ==> !flags[t]
      invariant Linked(dupfwd[..], duplist[..], a.numecs) && Separates(a, ds[..i], duplist[..]) && Noted(a, ds[..i], symlist[..])
    {
      hide Linked, Separates, Noted;
      assert ds[..i + 1] == ds[..i] + [ds[i]];
      PartitionBy(a, ds[..i], ds[i], symlist, dupfwd, duplist, flags);
      i := i + 1;
    }
    assert ds[..|ds|] == ds;
  }
}
