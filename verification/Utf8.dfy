/** The string functions of ccclib/src/utf8.cpp, which count characters without decoding them. */
module Utf8 {
  import opened Basics
  import opened Utf8conv

  /** Every sequence is complete, and none but the zero byte is read as 0. */
  predicate WellCoded(b: seq<Byte>)
    decreases |b|
  {
    b == [] || (var (code, used) := Decode(b); (code != 0 || b[0] == 0) && WellCoded(b[used..]))
  }

  /** Every continuing byte belongs to a sequence; the sequences may be broken off. */
  predicate Attached(b: seq<Byte>)
    decreases |b|
  {
    b == [] || (!Cont(b[0]) && Attached(b[Decode(b).1..]))
  }

  /** The number of bytes that do not continue a sequence. */
  function Count(b: seq<Byte>): (n: nat)
    ensures n <= |b|
  {
    if b == [] then 0 else Count(b[..|b| - 1]) + if Cont(b[|b| - 1]) then 0 else 1
  }

  lemma {:induction false} CountSplit(b: seq<Byte>, c: seq<Byte>)
    ensures Count(b + c) == Count(b) + Count(c)
    decreases |c|
  {
    if c == [] {
      assert b + c == b;
    } else {
      CountSplit(b, c[..|c| - 1]);
      assert (b + c)[..|b + c| - 1] == b + c[..|c| - 1];
    }
  }

  lemma {:induction false} CountNone(b: seq<Byte>)
    requires forall i :: 0 <= i < |b| ==> Cont(b[i])
    ensures Count(b) == 0
  {
    if b != [] { CountNone(b[..|b| - 1]); }
  }

  /** The byte offset behind the first n characters. */
  function Skip(b: seq<Byte>, n: nat): (i: nat)
    ensures i <= |b|
    decreases n
  {
    if n == 0 || b == [] then 0 else var used := Decode(b).1; used + Skip(b[used..], n - 1)
  }

  /** The bytes a sequence takes: all but the first continue it, and it ends where it is complete or broken off. */
  lemma UnitShape(b: seq<Byte>)
    requires b != []
    ensures var (code, used) := Decode(b);
            && (forall i :: 1 <= i < used ==> Cont(b[i])) && (b[0] < 0x80 || Cont(b[0]) ==> used == 1)
            && if Cont(b[0]) then SeqLen(b[0]) == code as int == 0
               else used == SeqLen(b[0]) || (used < SeqLen(b[0]) && (used < |b| ==> !Cont(b[used])))
  {
    var n := SeqLen(b[0]);
    if n > 0 {
      var k := Run(b[1..], n - 1);
      assert forall i :: 0 <= i < k ==> Cont(b[1..][i]);
      assert forall i :: 1 <= i < k + 1 ==> b[i] == b[1..][i - 1];
      assert k < n - 1 && k + 1 < |b| ==> b[1..][k] == b[k + 1];
    }
  }

  lemma WellStep(b: seq<Byte>)
    requires b != []
    ensures var (code, used) := Decode(b); WellCoded(b) <==> (code != 0 || b[0] == 0) && WellCoded(b[used..])
  {
    hide Decode;
  }

  lemma AttachedStep(b: seq<Byte>)
    requires b != []
    ensures Attached(b) <==> !Cont(b[0]) && Attached(b[Decode(b).1..])
  {
    hide Decode;
  }

  lemma {:induction false} WellAttached(b: seq<Byte>)
    requires WellCoded(b)
    ensures Attached(b)
    decreases |b|
  {
    if b != [] {
      UnitShape(b);
      hide Decode;
      WellAttached(b[Decode(b).1..]);
    }
  }

  function AtLeast0(x: int): nat { if x < 0 then 0 else x }

  lemma UnitCount(b: seq<Byte>)
    requires b != []
    ensures Count(b) == Count(b[Decode(b).1..]) + if Cont(b[0]) then 0 else 1
  {
    hide *;
    UnitShape(b);
    var used := Decode(b).1;
    CountFront(b, 0);
    CountSplit(b[1..used], b[used..]);
    CountNone(b[1..used]);
    assert b[0..] == b && b[1..] == b[1..used] + b[used..];
  }

  /** Counting the bytes that do not continue never finds more than the characters, and finds them all exactly
      if no byte continues nothing. */
  lemma {:induction false} CountIsLength(b: seq<Byte>)
    ensures Count(b) <= |Chars(b)|
    ensures Count(b) == |Chars(b)| <==> Attached(b)
    decreases |b|
  {
    if b != [] {
      UnitCount(b);
      hide Decode, Count;
      CountIsLength(b[Decode(b).1..]);
    }
  }

  /** A string on which the two differ. */
  lemma MalformedMiscounted()
    ensures !Attached([0x80]) && Count([0x80]) == 0 && Chars([0x80]) == [QUESTION]
  {
    assert Decode([0x80]) == (0, 1);
    CharsFrom([0x80]);
    CountNone([0x80]);
  }

  lemma DecodePrefix(b: seq<Byte>, m: nat)
    requires b != [] && Decode(b).1 <= m <= |b|
    ensures Decode(b[..m]) == Decode(b)
  {
    hide *;
    UnitShape(b);
    var used := Decode(b).1;
    var c := b[..m];
    assert c[1..used] == b[1..used];
    if used < SeqLen(b[0]) {
      DecodeCut(b, used);
      DecodeCut(c, used);
    } else {
      DecodeWhole(b, used);
      DecodeWhole(c, used);
    }
  }

  lemma SkipStep(b: seq<Byte>, n: nat)
    requires b != [] && n > 0
    ensures var used := Decode(b).1; Skip(b, n) == used + Skip(b[used..], n - 1)
  {
    hide Decode;
  }

  /** How the characters and the coding of b[..i] come from those of its first character and the rest. */
  lemma FrontStep(b: seq<Byte>, i: nat)
    requires b != [] && Decode(b).1 <= i <= |b|
    ensures var used := Decode(b).1;
            && (WellCoded(b) ==> (WellCoded(b[..i]) <==> WellCoded(b[used..][..i - used])))
            && (Attached(b) ==> (Attached(b[..i]) <==> Attached(b[used..][..i - used])))
            && Chars(b[..i]) == Chars(b)[..1] + Chars(b[used..][..i - used])
  {
    hide *;
    var used, c := Decode(b).1, b[..i];
    DecodePrefix(b, i);
    WellStep(b);
    WellStep(c);
    AttachedStep(b);
    AttachedStep(c);
    CharsFrom(b);
    CharsFrom(c);
    assert c[used..] == b[used..][..i - used] && c[0] == b[0];
  }

  lemma CharsStepBack(b: seq<Byte>)
    requires b != []
    ensures var used := Decode(b).1;
            && |Chars(b)| == 1 + |Chars(b[used..])| && Chars(b)[1..] == Chars(b[used..])
            && Chars(b) == Chars(b)[..1] + Chars(b[used..])
  {
    hide Decode;
  }

  lemma SkipNothing(b: seq<Byte>, n: nat)
    requires n == 0 || b == []
    ensures Skip(b, n) == 0 && Min(n, |Chars(b)|) == 0
    ensures WellCoded([]) && Attached([]) && Chars([]) == [] && Count([]) == 0
  {
  }

  lemma MinStep(n: nat, k: nat)
    requires n > 0
    ensures Min(n, k + 1) == Min(n - 1, k) + 1 && 0 <= Min(n - 1, k) <= k
  {
  }

  /** Behind n characters a string can be cut: the parts have the characters before and after. */
  lemma {:induction false} SkipCuts(b: seq<Byte>, n: nat)
    ensures var i, w, k := Skip(b, n), Chars(b), Min(n, |Chars(b)|); Chars(b[..i]) == w[..k] && Chars(b[i..]) == w[k..]
    ensures WellCoded(b) ==> var i := Skip(b, n); WellCoded(b[..i]) && WellCoded(b[i..])
    ensures Attached(b) ==> var i := Skip(b, n); Attached(b[..i]) && Attached(b[i..])
    decreases n
  {
    hide *;
    var i := Skip(b, n);
    if n == 0 || b == [] {
      SkipNothing(b, n);
      assert b[..i] == [] && b[i..] == b;
      assert Chars(b)[0..] == Chars(b);
    } else {
      UnitShape(b);
      var used := Decode(b).1;
      SkipCuts(b[used..], n - 1);
      SkipStep(b, n);
      FrontStep(b, i);
      CharsStepBack(b);
      WellStep(b);
      AttachedStep(b);
      assert b[i..] == b[used..][i - used..];
      var w, rest, k := Chars(b), Chars(b[used..]), Min(n - 1, |Chars(b[used..])|);
      MinStep(n, |rest|);
      assert w[..1] + rest[..k] == w[..k + 1] && rest[k..] == w[k + 1..];
    }
  }

  lemma CountFront(p: seq<Byte>, i: nat)
    requires i < |p|
    ensures Count(p[i..]) == Count(p[i + 1..]) + if Cont(p[i]) then 0 else 1
  {
    CountSplit([p[i]], p[i + 1..]);
    assert p[i..] == [p[i]] + p[i + 1..];
    assert [p[i]][..0] == [];
  }

  // ----- stepping without decoding -----

  /** The length of the run of continuing bytes at the front. */
  function Conts(b: seq<Byte>): (k: nat)
    ensures k <= |b|
    ensures (forall i :: 0 <= i < k ==> Cont(b[i])) && (k < |b| ==> !Cont(b[k]))
  {
    if b == [] || !Cont(b[0]) then 0 else 1 + Conts(b[1..])
  }

  /** Behind n bytes that do not continue; behind the last one also over what continues it, unless it is ASCII. */
  function Past(b: seq<Byte>, n: int): (i: nat)
    ensures i <= |b|
  {
    if n <= 0 || b == [] then 0
    else if Cont(b[0]) then 1 + Past(b[1..], n)
    else if n > 1 then 1 + Past(b[1..], n - 1)
    else 1 + if b[0] > 0x80 then Conts(b[1..]) else 0
  }

  /** In front of the last n bytes that do not continue. */
  function Back(b: seq<Byte>, n: int): (i: nat)
    ensures i <= |b|
  {
    if n <= 0 || b == [] then |b|
    else Back(b[..|b| - 1], if Cont(b[|b| - 1]) then n else n - 1)
  }

  lemma {:induction false} ContsAre(b: seq<Byte>, k: nat)
    requires k <= |b| && (forall i :: 0 <= i < k ==> Cont(b[i])) && (k < |b| ==> !Cont(b[k]))
    ensures Conts(b) == k
  {
    if k > 0 { ContsAre(b[1..], k - 1); }
  }

  lemma {:induction false} PastConts(b: seq<Byte>, k: nat, n: int)
    requires k <= |b| && n > 0 && (forall i :: 0 <= i < k ==> Cont(b[i]))
    ensures Past(b, n) == k + Past(b[k..], n)
  {
    if k == 0 {
      assert b[0..] == b;
    } else {
      PastConts(b[1..], k - 1, n);
      assert b[1..][k - 1..] == b[k..];
    }
  }

  /** Stepping over more than the first sequence. */
  lemma PastUnit(b: seq<Byte>, n: int)
    requires b != [] && !Cont(b[0]) && n > 1
    ensures var used := Decode(b).1; Past(b, n) == used + Past(b[used..], n - 1)
  {
    hide Decode, Cont;
    UnitShape(b);
    var used := Decode(b).1;
    PastConts(b[1..], used - 1, n - 1);
    assert b[1..][used - 1..] == b[used..];
  }

  lemma HighNotCont(c: Byte)
    requires !Cont(c)
    ensures c > 0x80 <==> c >= 0x80
  {
  }

  /** Stepping over one sequence. */
  lemma PastOne(b: seq<Byte>)
    requires b != [] && !Cont(b[0])
    ensures var used := Decode(b).1;
            && (used == |b| || !Cont(b[used]) || b[0] < 0x80 ==> Past(b, 1) == used)
            && (used < |b| && Cont(b[used]) && b[0] > 0x80 ==> Past(b, 1) > used)
  {
    hide Decode, Cont, SeqLen;
    UnitShape(b);
    HighNotCont(b[0]);
    var used := Decode(b).1;
    if used == |b| || !Cont(b[used]) {
      ContsAre(b[1..], used - 1);
    }
  }

  /** Where every continuing byte belongs to a sequence, stepping is skipping characters. */
  lemma {:induction false} PastSkips(b: seq<Byte>, n: int)
    requires Attached(b)
    ensures Past(b, n) == Skip(b, AtLeast0(n))
    decreases |b|
  {
    hide Decode, Cont;
    if n > 0 && b != [] {
      UnitShape(b);
      var rest := b[Decode(b).1..];
      SkipStep(b, n);
      if n > 1 {
        PastUnit(b, n);
        PastSkips(rest, n - 1);
      } else {
        PastOne(b);
        SkipNothing(rest, 0);
      }
    }
  }

  lemma {:induction false} BackStops(b: seq<Byte>, n: int)
    ensures var i := Back(b, n);
            if n <= 0 then i == |b| else (i < |b| && !Cont(b[i]) && Count(b[i..]) == n) || (i == 0 && Count(b) < n)
    decreases |b|
  {
    hide Cont;
    if n > 0 && b != [] {
      var front, m, i := b[..|b| - 1], if Cont(b[|b| - 1]) then n else n - 1, Back(b, n);
      BackStops(front, m);
      if i < |b| {
        assert b[i..][..|b[i..]| - 1] == front[i..];
        assert front[0..] == front && b[0..] == b;
      }
      if m == 0 { assert front[i..] == []; }
    }
  }

  /** The place behind k characters is the only one between two characters with that count in front. */
  lemma {:induction false} SkipUnique(b: seq<Byte>, k: nat, i: nat)
    requires Attached(b) && i <= |b| && (i == |b| || !Cont(b[i])) && Count(b[..i]) == k
    ensures i == Skip(b, k)
    decreases |b|
  {
    hide *;
    SkipNothing(b, 0);
    if b != [] && i > 0 {
      UnitShape(b);
      AttachedStep(b);
      var used := Decode(b).1;
      assert i >= used;
      DecodePrefix(b, i);
      UnitCount(b[..i]);
      assert b[..i][used..] == b[used..i] && b[used..][..i - used] == b[used..i];
      SkipUnique(b[used..], k - 1, i - used);
      SkipStep(b, k);
    } else {
      assert b[..i] == [];
      SkipNothing(b, k);
    }
  }

  /** And stepping back from the end leaves the others in front. */
  lemma BackSkips(b: seq<Byte>, n: int)
    requires Attached(b)
    ensures Back(b, n) == Skip(b, AtLeast0(|Chars(b)| - AtLeast0(n)))
  {
    hide *;
    var i := Back(b, n);
    BackStops(b, n);
    CountIsLength(b);
    CountSplit(b[..i], b[i..]);
    assert b == b[..i] + b[i..];
    NotNegative(n);
    NotNegative(|Chars(b)| - AtLeast0(n));
    SkipNothing(b, 0);
    if n <= 0 { assert b[i..] == []; }
    if i > 0 || n <= 0 { SkipUnique(b, Count(b[..i]), i); }
  }

  lemma NotNegative(n: int)
    ensures AtLeast0(n) == if n < 0 then 0 else n
  {
  }

  // ----- exactly when -----

  /** One byte in front that continues nothing. */
  predicate StrayFront(p: seq<Byte>) { p != [] && Cont(p[0]) && Attached(p[1..]) }

  /** One byte at the end that continues nothing, alone or behind ASCII. */
  predicate StrayEnd(p: seq<Byte>) {
    p != [] && Attached(p[..|p| - 1]) && (|p| > 1 ==> p[|p| - 2] < 0x80)
  }

  /** The first n characters are taken, for all n, exactly if every continuing byte belongs to a sequence, or only
      the last byte does not and does not follow another sequence. */
  lemma LeftExact(p: seq<Byte>)
    ensures Attached(p) || StrayEnd(p) <==>
            forall n: int :: Chars(p[..Past(p, n)]) == Chars(p)[..Min(AtLeast0(n), |Chars(p)|)]
  {
    hide *;
    NotNegatives();
    if Attached(p) || StrayEnd(p) {
      forall n: int ensures Chars(p[..Past(p, n)]) == Chars(p)[..Min(AtLeast0(n), |Chars(p)|)] {
        if Attached(p) { PastSkips(p, n); } else { StrayEndSkips(p, n); }
        SkipCuts(p, AtLeast0(n));
      }
    } else {
      var n := LeftFails(p);
      assert |Chars(p)[..Min(AtLeast0(n), |Chars(p)|)]| <= n;
      assert Chars(p[..Past(p, n)]) != Chars(p)[..Min(AtLeast0(n), |Chars(p)|)];
    }
  }

  lemma NotNegatives()
    ensures forall n: int :: AtLeast0(n) == if n < 0 then 0 else n
    ensures forall n: int, m: int :: Min(n, m) == if n < m then n else m
  {
  }

  /** The first sequence of a string with a stray end, unless it is all there is. */
  lemma StrayEndStep(p: seq<Byte>)
    requires |p| > 1 && !Attached(p) && !Cont(p[0])
    ensures var used := Decode(p).1;
            && used < |p| && !Attached(p[used..])
            && (StrayEnd(p) <==> StrayEnd(p[used..]) && (|p[used..]| == 1 ==> p[0] < 0x80))
  {
    hide Decode, Attached, Cont;
    var used, a := Decode(p).1, p[..|p| - 1];
    UnitShape(p);
    AttachedStep(p);
    SkipNothing([], 0);
    var rest := p[used..];
    assert rest != [];
    DecodePrefix(p, |a|);
    AttachedStep(a);
    assert a[used..] == rest[..|rest| - 1];
    if |rest| == 1 && used > 1 { ContIsHigh(p[used - 1]); }
    LeadIsHigh(p[0]);
  }

  lemma ContIsHigh(c: Byte)
    requires Cont(c)
    ensures !(c < 0x80)
  {
  }

  lemma LeadIsHigh(c: Byte)
    ensures SeqLen(c) > 1 ==> !(c < 0x80)
  {
  }

  lemma {:induction false} StrayEndSkips(p: seq<Byte>, n: int)
    requires StrayEnd(p) && !Attached(p)
    ensures Past(p, n) == Skip(p, AtLeast0(n))
    decreases |p|
  {
    hide Decode, Cont, Attached;
    UnitShape(p);
    if n > 0 {
      SkipStep(p, n);
      if |p| == 1 {
        SkipNothing([], n - 1);
        assert p[1..] == [];
      } else {
        AttachedStep(p[..|p| - 1]);
        StrayEndStep(p);
        var rest := p[Decode(p).1..];
        if n > 1 {
          PastUnit(p, n);
          StrayEndSkips(rest, n - 1);
        } else {
          PastOne(p);
          SkipNothing(rest, 0);
          if |rest| > 1 { AttachedStep(rest[..|rest| - 1]); }
        }
      }
    }
  }

  /** Otherwise some number of characters brings too many. */
  lemma {:induction false} LeftFails(p: seq<Byte>) returns (n: int)
    requires !Attached(p) && !StrayEnd(p)
    ensures n > 0 && |Chars(p[..Past(p, n)])| > n
    decreases |p|
  {
    hide Decode, Cont, Attached, Chars, Past;
    SkipNothing([], 0);
    UnitShape(p);
    AttachedStep(p);
    if Cont(p[0]) {
      n := 1;
      StrayTaken(p);
    } else {
      StrayEndStep(p);
      var rest := p[Decode(p).1..];
      HighNotCont(p[0]);
      if Cont(rest[0]) && p[0] > 0x80 {
        n := 1;
        PastOne(p);
      } else {
        if |rest| == 1 { LoneNotAttached(rest); }
        var m := LeftFails(rest);
        n := m + 1;
        PastUnit(p, n);
      }
      var i := Past(p, n);
      FrontStep(p, i);
      CharsStepBack(p);
      if n == 1 { CharsStepBack(rest[..i - Decode(p).1]); }
      assert |Chars(p)[..1]| == 1;
    }
  }

  lemma LoneNotAttached(p: seq<Byte>)
    requires |p| == 1 && !Attached(p)
    ensures Cont(p[0])
  {
    hide Decode;
    assert p[Decode(p).1..] == [];
  }

  /** A byte in front that continues nothing is taken along with the next character. */
  lemma StrayTaken(p: seq<Byte>)
    requires |p| >= 2 && Cont(p[0])
    ensures |Chars(p[..Past(p, 1)])| >= 2
  {
    hide Cont, Decode;
    var r := p[..Past(p, 1)];
    assert Past(p[1..], 1) >= 1;
    UnitShape(r);
    assert |r| >= 2 && r[1..] != [];
  }

  /** The last n characters are taken, for all n, exactly if every continuing byte belongs to a sequence, or only
      the first byte does not. */
  lemma RightExact(p: seq<Byte>)
    ensures Attached(p) || StrayFront(p) <==>
            forall n: int :: Chars(p[Back(p, n)..]) == Chars(p)[AtLeast0(|Chars(p)| - AtLeast0(n))..]
  {
    hide *;
    NotNegatives();
    if Attached(p) || StrayFront(p) {
      forall n: int ensures Chars(p[Back(p, n)..]) == Chars(p)[AtLeast0(|Chars(p)| - AtLeast0(n))..] {
        if Attached(p) { BackSkips(p, n); } else { StrayFrontSkips(p, n); }
        SkipCuts(p, AtLeast0(|Chars(p)| - AtLeast0(n)));
      }
    } else {
      var n := RightFails(p);
      assert Chars(p[Back(p, n)..]) != Chars(p)[AtLeast0(|Chars(p)| - AtLeast0(n))..];
    }
  }

  lemma StrayFrontSkips(p: seq<Byte>, n: int)
    requires StrayFront(p)
    ensures Back(p, n) == Skip(p, AtLeast0(|Chars(p)| - AtLeast0(n)))
  {
    hide Cont, Decode, Back, Skip, Chars, Count, Attached;
    var q, i, k := p[1..], Back(p, n), |Chars(p)| - AtLeast0(n);
    UnitShape(p);
    CharsStepBack(p);
    UnitCount(p);
    BackStops(p, n);
    CountIsLength(q);
    SkipNothing(p, 0);
    if n <= 0 {
      SkipNothing(q, 0);
      assert q[..|q|] == q;
      SkipUnique(q, Count(q), |q|);
      SkipStep(p, k);
    } else if i > 0 {
      var j := i - 1;
      assert q[j..] == p[i..] && q == q[..j] + q[j..];
      CountSplit(q[..j], q[j..]);
      SkipUnique(q, Count(q[..j]), j);
      SkipStep(p, k);
    }
  }

  /** Stepping back over as many characters as utf8len finds, or over one more, comes to the front, although there
      are more. */
  lemma RightFails(p: seq<Byte>) returns (n: int)
    requires !Attached(p) && !StrayFront(p)
    ensures 0 < n < |Chars(p)| && Back(p, n) == 0 && p[Back(p, n)..] == p
    ensures !Cont(p[0]) ==> n == Count(p)
  {
    hide Cont, Decode, Back, Chars, Count, Attached;
    SkipNothing([], 0);
    CountIsLength(p);
    UnitShape(p);
    UnitCount(p);
    CharsStepBack(p);
    n := Count(p);
    if Cont(p[0]) {
      CountIsLength(p[1..]);
      n := n + 1;
    }
    BackStops(p, n);
    var i := Back(p, n);
    assert p == p[..i] + p[i..];
    CountSplit(p[..i], p[i..]);
    if i > 0 && !Cont(p[0]) { UnitCount(p[..i]); }
    assert p[0..] == p;
  }

  // ----- the functions -----

  /** utf8len. */
  method Utf8Len(p: seq<Byte>) returns (clen: nat)
    ensures clen == Count(p) <= |Chars(p)| && (clen == |Chars(p)| <==> Attached(p))
  {
    hide Attached, Chars, Cont;
    clen := 0;
    var i := 0;
    while i < |p|
      invariant i <= |p| && clen == Count(p[..i])
    {
      assert p[..i + 1][..i] == p[..i];
      if !Cont(p[i]) {
        clen := clen + 1;
      }
      i := i + 1;
    }
    assert p[..i] == p;
    CountIsLength(p);
  }

  lemma PastMore(b: seq<Byte>, n: int)
    requires b != [] && n > 0
    ensures Past(b, n) == 1 + if Cont(b[0]) then Past(b[1..], n)
                              else if n > 1 then Past(b[1..], n - 1) else if b[0] > 0x80 then Conts(b[1..]) else 0
  {
  }

  lemma PastNothing(b: seq<Byte>, n: int)
    requires n <= 0 || b == []
    ensures Past(b, n) == 0 && Conts([]) == 0
  {
  }

  lemma ContsMore(b: seq<Byte>)
    requires b != []
    ensures Conts(b) == if Cont(b[0]) then 1 + Conts(b[1..]) else 0
  {
  }

  /** The loops of utf8left and utf8substr that step over clen characters. */
  method Forward(p: seq<Byte>, from: nat, clen: int) returns (i: nat)
    requires from <= |p|
    ensures from <= i <= |p| && i == from + Past(p[from..], clen)
  {
    hide *;
    var k, c: Byte := clen, 0;
    i := from;
    PastNothing(p[from..], 0);
    while i < |p| && 0 < k
      invariant from <= i <= |p|
      invariant clen > 0 && k == 0 ==> from + Past(p[from..], clen) == i + if c > 0x80 then Conts(p[i..]) else 0
      invariant clen <= 0 || k > 0 ==> from + Past(p[from..], clen) == i + Past(p[i..], k)
      invariant clen <= 0 ==> c == 0 && k == clen
      invariant clen > 0 ==> k >= 0
    {
      PastMore(p[i..], k);
      assert p[i..][1..] == p[i + 1..];
      c := p[i];
      if !Cont(c) {
        k := k - 1;
      }
      i := i + 1;
    }
    PastNothing(p[i..], k);
    if c > 0x80 {
      ghost var stopped := i;
      while i < |p|
        invariant stopped <= i <= |p| && stopped + Conts(p[stopped..]) == i + Conts(p[i..])
      {
        ContsMore(p[i..]);
        assert p[i..][1..] == p[i + 1..];
        c := p[i];
        if !Cont(c) {
          break;
        }
        i := i + 1;
      }
      assert i == |p| ==> p[i..] == [];
    }
  }

  /** utf8left: the first clen characters. */
  method Utf8Left(p: seq<Byte>, clen: int) returns (r: seq<Byte>)
    ensures r == p[..Past(p, clen)]
    ensures Attached(p) ==> Attached(r) && Chars(r) == Chars(p)[..Min(AtLeast0(clen), |Chars(p)|)]
    ensures WellCoded(p) ==> WellCoded(r)
  {
    hide *;
    var i := Forward(p, 0, clen);
    assert p[0..] == p;
    if WellCoded(p) { WellAttached(p); }
    if Attached(p) {
      PastSkips(p, clen);
      SkipCuts(p, AtLeast0(clen));
    }
    r := p[..i];
  }

  lemma BackMore(b: seq<Byte>, n: int)
    requires b != [] && n > 0
    ensures Back(b, n) == Back(b[..|b| - 1], if Cont(b[|b| - 1]) then n else n - 1)
  {
  }

  lemma BackNothing(b: seq<Byte>, n: int)
    requires n <= 0 || b == []
    ensures Back(b, n) == |b|
  {
  }

  /** The loops of utf8right and utf8substr that step back over clen characters from the end. */
  method Backward(p: seq<Byte>, clen: int) returns (i: nat)
    ensures i == Back(p, clen) && i <= |p|
  {
    hide *;
    var k := clen;
    i := |p|;
    assert p[..i] == p;
    while 0 < i && 0 < k
      invariant i <= |p| && Back(p[..i], k) == Back(p, clen)
    {
      BackMore(p[..i], k);
      assert p[..i][..i - 1] == p[..i - 1];
      if !Cont(p[i - 1]) {
        k := k - 1;
      }
      i := i - 1;
    }
    BackNothing(p[..i], k);
  }

  /** utf8right: the last clen characters. */
  method Utf8Right(p: seq<Byte>, clen: int) returns (r: seq<Byte>)
    ensures r == p[Back(p, clen)..]
    ensures Attached(p) ==> Attached(r) && Chars(r) == Chars(p)[AtLeast0(|Chars(p)| - AtLeast0(clen))..]
    ensures WellCoded(p) ==> WellCoded(r)
  {
    hide *;
    var i := Backward(p, clen);
    ghost var k := AtLeast0(|Chars(p)| - AtLeast0(clen));
    if WellCoded(p) { WellAttached(p); }
    if Attached(p) {
      BackSkips(p, clen);
      SkipCuts(p, k);
    }
    Least(|Chars(p)|, AtLeast0(clen));
    r := p[i..];
  }

  lemma Least(n: nat, m: nat)
    ensures Min(AtLeast0(n - m), n) == AtLeast0(n - m) <= n
  {
  }

  /** The characters of w from the cbeg-th on, counted from 1, or from the end if cbeg is negative; at most clen of
      them, if clen is given. */
  function Substr(w: seq<Code>, cbeg: int, clen: Option<int>): seq<Code> {
    if cbeg == 0 then []
    else
      var rest := w[if cbeg > 0 then Min(cbeg - 1, |w|) else AtLeast0(|w| + cbeg)..];
      if clen.None? then rest else rest[..Min(AtLeast0(clen.value), |rest|)]
  }

  /** Element by element: from the cbeg-th character, or from the one that many places before the end. */
  lemma SubstrMeans(w: seq<Code>, cbeg: int, clen: Option<int>)
    ensures cbeg == 0 ==> Substr(w, cbeg, clen) == []
    ensures clen.None? && 0 < cbeg <= |w| ==> |Substr(w, cbeg, clen)| == |w| - cbeg + 1
    ensures clen.None? && -|w| <= cbeg < 0 ==> |Substr(w, cbeg, clen)| == -cbeg
    ensures clen.Some? && 0 <= clen.value && 0 < cbeg && cbeg - 1 + clen.value <= |w| ==> |Substr(w, cbeg, clen)| == clen.value
    ensures clen.Some? && 0 <= clen.value <= -cbeg <= |w| ==> |Substr(w, cbeg, clen)| == clen.value
    ensures cbeg > |w| ==> Substr(w, cbeg, clen) == []
    ensures 0 < cbeg <= |w| ==>
      forall i :: 0 <= i < |Substr(w, cbeg, clen)| ==> cbeg - 1 + i < |w| && Substr(w, cbeg, clen)[i] == w[cbeg - 1 + i]
    ensures -|w| <= cbeg < 0 ==>
      forall i :: 0 <= i < |Substr(w, cbeg, clen)| ==> |w| + cbeg + i < |w| && Substr(w, cbeg, clen)[i] == w[|w| + cbeg + i]
  {
    if cbeg != 0 && -|w| <= cbeg <= |w| {
      var from := if cbeg > 0 then cbeg - 1 else |w| + cbeg;
      var rest, r := w[from..], Substr(w, cbeg, clen);
      assert r <= rest;
      hide Substr, Min, AtLeast0;
      forall i | 0 <= i < |r| ensures from + i < |w| && r[i] == w[from + i] { assert r[i] == rest[i]; }
    }
  }

  /** Where the part asked for starts. */
  function Start(p: seq<Byte>, cbeg: int): (i: nat)
    ensures i <= |p|
  {
    if cbeg > 0 then Past(p, cbeg - 1) else Back(p, -cbeg)
  }

  /** What utf8substr cuts out, in bytes. */
  function Part(p: seq<Byte>, cbeg: int, clen: Option<int>): seq<Byte> {
    if cbeg == 0 then []
    else
      var rest := p[Start(p, cbeg)..];
      if clen.None? then rest else rest[..Past(rest, clen.value)]
  }

  /** utf8substr. */
  method Utf8Substr(p: seq<Byte>, cbeg: int, clen: Option<int>) returns (r: seq<Byte>)
    ensures r == Part(p, cbeg, clen)
    ensures Attached(p) ==> Attached(r) && Chars(r) == Substr(Chars(p), cbeg, clen)
    ensures WellCoded(p) ==> WellCoded(r)
  {
    hide *;
    var i := 0;
    if cbeg > 0 {
      i := Forward(p, 0, cbeg - 1);
      assert p[0..] == p;
    } else if cbeg < 0 {
      i := Backward(p, -cbeg);
    }
    if cbeg == 0 {
      r := [];
    } else if clen.None? {
      r := p[i..];
    } else {
      var j := Forward(p, i, clen.value);
      r := p[i..j];
      assert p[i..][..j - i] == r;
    }
    PartIs(p, cbeg, clen);
    if WellCoded(p) { WellAttached(p); }
    if Attached(p) { PartSlices(p, cbeg, clen); }
  }

  lemma PartIs(p: seq<Byte>, cbeg: int, clen: Option<int>)
    ensures var i := if cbeg > 0 then Past(p, cbeg - 1) else Back(p, -cbeg);
            Part(p, cbeg, clen) == if cbeg == 0 then [] else if clen.None? then p[i..] else p[i..][..Past(p[i..], clen.value)]
  {
  }

  /** The bytes cut out are those of the characters asked for. */
  lemma PartSlices(p: seq<Byte>, cbeg: int, clen: Option<int>)
    requires Attached(p)
    ensures var r := Part(p, cbeg, clen);
            Attached(r) && Chars(r) == Substr(Chars(p), cbeg, clen) && (WellCoded(p) ==> WellCoded(r))
  {
    hide *;
    SkipNothing([], 0);
    PartIs(p, cbeg, clen);
    var w := Chars(p);
    var k := if cbeg > 0 then AtLeast0(cbeg - 1) else AtLeast0(|w| - AtLeast0(-cbeg));
    SubstrIs(w, cbeg, clen, k);
    if cbeg != 0 {
      if cbeg > 0 { PastSkips(p, cbeg - 1); } else { BackSkips(p, -cbeg); }
      var i := Skip(p, k);
      SkipCuts(p, k);
      if clen.Some? {
        PastSkips(p[i..], clen.value);
        SkipCuts(p[i..], AtLeast0(clen.value));
      }
    }
  }

  /** The slices are right for all arguments exactly if every continuing byte belongs to a sequence, or there is
      only one byte. */
  lemma SubstrExact(p: seq<Byte>)
    ensures Attached(p) || |p| == 1 <==> forall cbeg, clen :: Chars(Part(p, cbeg, clen)) == Substr(Chars(p), cbeg, clen)
  {
    hide *;
    if Attached(p) {
      forall cbeg, clen ensures Chars(Part(p, cbeg, clen)) == Substr(Chars(p), cbeg, clen) { PartSlices(p, cbeg, clen); }
    } else if |p| == 1 {
      forall cbeg, clen ensures Chars(Part(p, cbeg, clen)) == Substr(Chars(p), cbeg, clen) { OneByte(p, cbeg, clen); }
    } else {
      SkipNothing([], 0);
      if Cont(p[0]) {
        StrayTaken(p);
        PartIs(p, 1, Some(1));
        PastNothing(p, 0);
        assert p[0..] == p;
        OneCharacter(Chars(p));
        assert Chars(Part(p, 1, Some(1))) != Substr(Chars(p), 1, Some(1));
      } else {
        NotStray(p);
        var n := RightFails(p);
        PartIs(p, -n, None);
        SubstrFromEnd(Chars(p), n);
        assert Chars(Part(p, -n, None)) != Substr(Chars(p), -n, None);
      }
    }
  }

  lemma OneByte(p: seq<Byte>, cbeg: int, clen: Option<int>)
    requires |p| == 1
    ensures Chars(Part(p, cbeg, clen)) == Substr(Chars(p), cbeg, clen)
  {
    hide Cont, Decode;
    UnitShape(p);
    CharsFrom(p);
    var r, w := Part(p, cbeg, clen), Chars(p);
    assert p[..0] == [] && p[..1] == p && p[0..] == p && p[1..] == [];
    assert |w| == 1;
    assert w[..0] == [] && w[..1] == w && w[0..] == w && w[1..] == [];
  }

  lemma NotStray(p: seq<Byte>)
    requires p != []
    ensures StrayFront(p) ==> Cont(p[0])
  {
  }

  lemma OneCharacter(w: seq<Code>)
    ensures |Substr(w, 1, Some(1))| <= 1
  {
  }

  lemma SubstrFromEnd(w: seq<Code>, n: int)
    requires 1 <= n < |w|
    ensures |Substr(w, -n, None)| == n
  {
  }

  lemma SubstrIs(w: seq<Code>, cbeg: int, clen: Option<int>, k: nat)
    requires cbeg > 0 ==> k == AtLeast0(cbeg - 1)
    requires cbeg < 0 ==> k == AtLeast0(|w| - AtLeast0(-cbeg))
    ensures cbeg == 0 ==> Substr(w, cbeg, clen) == []
    ensures var rest := w[Min(k, |w|)..];
            cbeg != 0 ==> Substr(w, cbeg, clen) == if clen.None? then rest else rest[..Min(AtLeast0(clen.value), |rest|)]
  {
  }

  /** utf8valid, on a byte array that ends with a 0. */
  method Utf8Valid(utf8: seq<Byte>) returns (result: bool)
    requires |utf8| > 0 && utf8[|utf8| - 1] == 0
    ensures result <==> WellCoded(utf8[..|utf8| - 1])
  {
    hide *;
    SkipNothing([], 0);
    var blen := |utf8| - 1;
    var len := 0;
    result := true;
    assert utf8[0..blen] == utf8[..blen];
    while result && len < blen
      invariant len <= blen && (WellCoded(utf8[..blen]) <==> result && WellCoded(utf8[len..blen]))
    {
      ghost var b := utf8[len..blen];
      var code, lseq := Utf8ToUcs(utf8, len);
      WellStep(b);
      assert b[lseq..] == utf8[len + lseq..blen];
      if code == 0 && utf8[len] != 0 {
        result := false;
      }
      len := len + lseq;
    }
    assert result ==> utf8[len..blen] == [];
  }

  /** What ucs_to_utf8 makes of any codes is well coded. */
  lemma {:induction false} EncodedWell(w: seq<Code>, rest: seq<Byte>)
    ensures WellCoded(EncodeAll(w) + rest) <==> WellCoded(rest)
    decreases |w|
  {
    hide Encode, WellCoded;
    if w == [] {
      assert EncodeAll(w) + rest == rest;
    } else {
      var last, front := w[|w| - 1], w[..|w| - 1];
      EncodedWell(front, Encode(last) + rest);
      assert EncodeAll(w) + rest == EncodeAll(front) + (Encode(last) + rest);
      EncodedStep(last, rest);
    }
  }

  lemma EncodedStep(c: Code, rest: seq<Byte>)
    ensures WellCoded(Encode(c) + rest) <==> WellCoded(rest)
  {
    hide *;
    var b := Encode(c) + rest;
    RoundTrip(c, rest);
    WellStep(b);
    ZeroByte(c);
    assert b[|Encode(c)|..] == rest && b[0] == Encode(c)[0];
  }
}
