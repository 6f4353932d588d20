/** Comparison (ccclib/src/stdcmp.cpp), the operators built on it (equalto.cpp), and what asort does with them. */
module Ordering {

  import opened Basics

  /** A value as stdcmp sees it. Other stands for the types that cannot be compared. */
  datatype Value =
    | Nil
    | Text(chars: seq<int>)
    | Binary(bytes: seq<int>)
    | Number(number: real)
    | Date(date: int)
    | Flag(flag: int)
    | Pointer(pointer: int)
    | Array(oref: int)
    | Block(boref: int, code: int)
    | Object(ooref: int, subtype: int)
    | Other

  predicate SameType(a: Value, b: Value) {
    || (a.Nil? && b.Nil?) || (a.Text? && b.Text?) || (a.Binary? && b.Binary?) || (a.Number? && b.Number?)
    || (a.Date? && b.Date?) || (a.Flag? && b.Flag?) || (a.Pointer? && b.Pointer?) || (a.Array? && b.Array?)
    || (a.Block? && b.Block?) || (a.Object? && b.Object?) || (a.Other? && b.Other?)
  }

  /** stdcmp has an answer: the types are the same or one value is NIL, and there is an order on them. */
  predicate Comparable(a: Value, b: Value) {
    a.Nil? || b.Nil? || (SameType(a, b) && !a.Other?)
  }

  // ----- what the order is -----

  /** The length of the longest common beginning. */
  function Common(s: seq<int>, t: seq<int>): (k: nat)
    ensures k <= |s| && k <= |t| && s[..k] == t[..k]
    ensures k < |s| && k < |t| ==> s[k] != t[k]
  {
    if s == [] || t == [] || s[0] != t[0] then 0
    else
      var k := Common(s[1..], t[1..]);
      assert s[..1 + k] == [s[0]] + s[1..][..k] && t[..1 + k] == [t[0]] + t[1..][..k];
      1 + k
  }

  /** s comes before t in the dictionary. */
  predicate Before(s: seq<int>, t: seq<int>) {
    var k := Common(s, t);
    k < |t| && (k < |s| ==> s[k] < t[k])
  }

  /** t is a beginning of s, but not all of it. */
  predicate Extends(s: seq<int>, t: seq<int>) { |t| < |s| && s[..|t|] == t }

  lemma CommonIs(s: seq<int>, t: seq<int>, k: nat)
    requires k <= |s| && k <= |t| && s[..k] == t[..k] && (k < |s| && k < |t| ==> s[k] != t[k])
    ensures Common(s, t) == k
  {
    var c := Common(s, t);
    assert forall i :: 0 <= i < k ==> s[i] == s[..k][i] == t[..k][i] == t[i];
    assert forall i :: 0 <= i < c ==> s[i] == s[..c][i] == t[..c][i] == t[i];
  }

  lemma BeforeTotal(s: seq<int>, t: seq<int>)
    ensures s == t || Before(s, t) || Before(t, s)
    ensures !(Before(s, t) && Before(t, s)) && (s == t ==> !Before(s, t))
  {
    var k := Common(s, t);
    CommonIs(t, s, k);
    if k == |s| == |t| {
      assert s == s[..k] && t == t[..k];
    }
  }

  lemma BeforeTransitive(s: seq<int>, t: seq<int>, u: seq<int>)
    requires Before(s, t) && Before(t, u)
    ensures Before(s, u)
  {
    var k, m := Common(s, t), Common(t, u);
    var n := if k < m then k else m;
    assert s[..k][..n] == s[..n] && t[..k][..n] == t[..n] && t[..m][..n] == t[..n] && u[..m][..n] == u[..n];
    if k < m {
      assert t[..m][k] == t[k] && u[..m][k] == u[k];
    } else if m < k {
      assert t[..k][m] == t[m] && s[..k][m] == s[m];
    }
    CommonIs(s, u, n);
  }

  // ----- stdcmp -----

  function Sign(below: bool, above: bool): (r: int)
    ensures -1 <= r <= 1
  {
    if below then -1 else if above then 1 else 0
  }

  /** Mode 0 is the dictionary; mode 1 stops at the end of the right side. */
  function CompareSeqs(s: seq<int>, t: seq<int>, mode: int): int {
    Sign(Before(s, t), Before(t, s) && !(mode != 0 && Extends(s, t)))
  }

  function Compare(a: Value, b: Value, mode: int): Option<int> {
    if !Comparable(a, b) then None
    else if a.Nil? || b.Nil? then Some(Sign(!b.Nil?, !a.Nil?))
    else
      Some(match a
           case Text(s) => CompareSeqs(s, b.chars, mode)
           case Binary(s) => CompareSeqs(s, b.bytes, mode)
           case Number(n) => Sign(n < b.number, n > b.number)
           case Date(d) => Sign(d < b.date, d > b.date)
           case Flag(f) => Sign(f == 0 && b.flag != 0, f != 0 && b.flag == 0)
           case Pointer(p) => Sign(p < b.pointer, p > b.pointer)
           case Array(o) => Sign(o < b.oref, o > b.oref)
           case Block(o, c) => Sign(o < b.boref || (o == b.boref && c < b.code), o > b.boref || (o == b.boref && c > b.code))
           case Object(o, c) =>
             Sign(o < b.ooref || (o == b.ooref && c < b.subtype), o > b.ooref || (o == b.ooref && c > b.subtype))
           case Nil => 0)
  }

  /** The scanning loop of stdcmp. */
  method ScanSeqs(ap: seq<int>, bp: seq<int>, mode: int) returns (r: int)
    ensures r == CompareSeqs(ap, bp, mode)
  {
    var al, bl := |ap|, |bp|;
    var minlen := if al < bl then al else bl;
    var l := 0;
    while l < minlen
      invariant l <= minlen && ap[..l] == bp[..l]
    {
      if ap[l] < bp[l] {
        CommonIs(ap, bp, l);
        return -1;
      } else if ap[l] > bp[l] {
        CommonIs(ap, bp, l);
        CommonIs(bp, ap, l);
        return 1;
      }
      assert ap[..l + 1] == ap[..l] + [ap[l]] && bp[..l + 1] == bp[..l] + [bp[l]];
      l := l + 1;
    }
    CommonIs(ap, bp, l);
    CommonIs(bp, ap, l);
    if al < bl {
      return -1;
    } else if mode == 0 && al > bl {
      return 1;
    } else {
      if al > bl { assert ap[..bl] == bp; }
      return 0;
    }
  }

  /** stdcmp. What it returns, type by type: NIL is in front of everything, false in front of true, blocks and objects
      are ordered by their first number and then by their second. Different types and types without an order raise an
      error. */
  method Stdcmp(a: Value, b: Value, mode: int) returns (r: Option<int>)
    ensures r == Compare(a, b, mode)
    ensures r.Some? ==> r.value in {-1, 0, 1}
    ensures a.Nil? && b.Nil? ==> r == Some(0)
    ensures a.Nil? && !b.Nil? ==> r == Some(-1)
    ensures !a.Nil? && b.Nil? ==> r == Some(1)
    ensures a.Number? && b.Number? ==> (r == Some(-1) <==> a.number < b.number) && (r == Some(1) <==> a.number > b.number)
    ensures a.Date? && b.Date? ==> (r == Some(-1) <==> a.date < b.date) && (r == Some(1) <==> a.date > b.date)
    ensures a.Pointer? && b.Pointer? ==>
      (r == Some(-1) <==> a.pointer < b.pointer) && (r == Some(1) <==> a.pointer > b.pointer)
    ensures a.Array? && b.Array? ==> (r == Some(-1) <==> a.oref < b.oref) && (r == Some(1) <==> a.oref > b.oref)
    ensures a.Flag? && b.Flag? ==>
      (r == Some(-1) <==> a.flag == 0 && b.flag != 0) && (r == Some(1) <==> a.flag != 0 && b.flag == 0)
    ensures a.Block? && b.Block? ==>
      && (r == Some(-1) <==> a.boref < b.boref || (a.boref == b.boref && a.code < b.code))
      && (r == Some(1) <==> a.boref > b.boref || (a.boref == b.boref && a.code > b.code))
    ensures a.Object? && b.Object? ==>
      && (r == Some(-1) <==> a.ooref < b.ooref || (a.ooref == b.ooref && a.subtype < b.subtype))
      && (r == Some(1) <==> a.ooref > b.ooref || (a.ooref == b.ooref && a.subtype > b.subtype))
    ensures r.Some? <==> a.Nil? || b.Nil? || (SameType(a, b) && !a.Other?)
    ensures a.Text? && b.Text? ==>
      && (r == Some(-1) <==> Earlier(a.chars, b.chars))
      && (r == Some(1) <==> Earlier(b.chars, a.chars) && (mode == 0 || !(b.chars <= a.chars)))
    ensures a.Binary? && b.Binary? ==>
      && (r == Some(-1) <==> Earlier(a.bytes, b.bytes))
      && (r == Some(1) <==> Earlier(b.bytes, a.bytes) && (mode == 0 || !(b.bytes <= a.bytes)))
  {
    r := StdcmpCases(a, b, mode);
    if a.Text? && b.Text? { SeqsMean(a.chars, b.chars, mode); }
    if a.Binary? && b.Binary? { SeqsMean(a.bytes, b.bytes, mode); }
    hide CompareSeqs, Earlier;
  }

  /** s ends where t goes on, or has the smaller character where they first differ. */
  ghost predicate Earlier(s: seq<int>, t: seq<int>) {
    exists k :: 0 <= k <= |s| && k < |t| && s[..k] == t[..k] && (k < |s| ==> s[k] < t[k])
  }

  lemma EarlierBefore(s: seq<int>, t: seq<int>)
    ensures Earlier(s, t) <==> Before(s, t)
  {
    if k :| 0 <= k <= |s| && k < |t| && s[..k] == t[..k] && (k < |s| ==> s[k] < t[k]) {
      CommonIs(s, t, k);
    }
    if Before(s, t) {
      var k := Common(s, t);
      assert s[..k] == t[..k];
    }
  }

  lemma ExtendsIs(s: seq<int>, t: seq<int>)
    ensures Extends(s, t) <==> t <= s && s != t
  {
    if Extends(s, t) { assert forall i :: 0 <= i < |t| ==> t[i] == s[..|t|][i] == s[i]; }
    if t <= s && s != t {
      assert s[..|t|] == t;
    }
  }

  lemma SeqsMean(s: seq<int>, t: seq<int>, mode: int)
    ensures CompareSeqs(s, t, mode) == -1 <==> Earlier(s, t)
    ensures CompareSeqs(s, t, mode) == 1 <==> Earlier(t, s) && (mode == 0 || !(t <= s))
  {
    EarlierBefore(s, t);
    EarlierBefore(t, s);
    BeforeTotal(s, t);
    ExtendsIs(s, t);
    hide Earlier, Before, Extends;
  }

  method StdcmpCases(a: Value, b: Value, mode: int) returns (r: Option<int>)
    ensures r == Compare(a, b, mode)
  {
    if !SameType(a, b) {
      if a.Nil? {
        return Some(-1);
      }
      if b.Nil? {
        return Some(1);
      }
      return None;
    }
    match a
    case Nil =>
      return Some(0);
    case Text(s) =>
      var n := ScanSeqs(s, b.chars, mode);
      return Some(n);
    case Binary(s) =>
      var n := ScanSeqs(s, b.bytes, mode);
      return Some(n);
    case Number(n) =>
      if n < b.number { return Some(-1); } else if n > b.number { return Some(1); } else { return Some(0); }
    case Date(d) =>
      if d < b.date { return Some(-1); } else if d > b.date { return Some(1); } else { return Some(0); }
    case Flag(f) =>
      if (f == 0) == (b.flag == 0) { return Some(0); } else { return Some(if f == 0 then -1 else 1); }
    case Pointer(p) =>
      if p < b.pointer { return Some(-1); } else if p > b.pointer { return Some(1); } else { return Some(0); }
    case Array(o) =>
      if o < b.oref { return Some(-1); } else if o > b.oref { return Some(1); } else { return Some(0); }
    case Block(o, c) =>
      if o < b.boref { return Some(-1); }
      else if o > b.boref { return Some(1); }
      else if c < b.code { return Some(-1); }
      else if c > b.code { return Some(1); }
      else { return Some(0); }
    case Object(o, c) =>
      if o < b.ooref { return Some(-1); }
      else if o > b.ooref { return Some(1); }
      if c < b.subtype { return Some(-1); }
      else if c > b.subtype { return Some(1); }
      else { return Some(0); }
    case Other =>
      return None;
  }

  // ----- properties -----

  /** Mode 1 cuts the left side to the length of the right side first, and then compares as mode 0. */
  lemma ModeOneCuts(s: seq<int>, t: seq<int>)
    ensures var u := if |s| > |t| then s[..|t|] else s; CompareSeqs(s, t, 1) == CompareSeqs(u, t, 0)
  {
    if |s| > |t| {
      var k, u := Common(s, t), s[..|t|];
      assert u[..k] == s[..k];
      CommonIs(u, t, k);
      CommonIs(t, u, k);
      CommonIs(t, s, k);
      if k == |t| { assert s[..k] == t[..k] == t; }
    }
  }

  /** Mode 0 is a total order on the values of one type, with NIL at the bottom. */
  lemma CompareAntisymmetric(a: Value, b: Value)
    requires Comparable(a, b)
    ensures Comparable(b, a) && Compare(b, a, 0).value == -Compare(a, b, 0).value
  {
    if a.Text? && b.Text? { BeforeTotal(a.chars, b.chars); }
    if a.Binary? && b.Binary? { BeforeTotal(a.bytes, b.bytes); }
  }

  /** Only equal values compare equal, except that all flags but 0 are the same flag. */
  lemma CompareZero(a: Value, b: Value)
    requires Comparable(a, b)
    ensures Compare(a, b, 0) == Some(0) <==> a == b || (a.Flag? && b.Flag? && a.flag != 0 && b.flag != 0)
  {
    if a.Text? && b.Text? { BeforeTotal(a.chars, b.chars); }
    if a.Binary? && b.Binary? { BeforeTotal(a.bytes, b.bytes); }
  }

  lemma CompareTransitive(a: Value, b: Value, c: Value)
    requires Comparable(a, b) && Comparable(b, c) && Comparable(a, c)
    requires Compare(a, b, 0).value <= 0 && Compare(b, c, 0).value <= 0
    ensures Compare(a, c, 0).value <= 0
    ensures Compare(a, b, 0).value < 0 || Compare(b, c, 0).value < 0 ==> Compare(a, c, 0).value < 0
  {
    hide Before;
    if a.Text? && b.Text? && c.Text? {
      SeqsTransitive(a.chars, b.chars, c.chars);
    } else if a.Binary? && b.Binary? && c.Binary? {
      SeqsTransitive(a.bytes, b.bytes, c.bytes);
    }
  }

  lemma SeqsTransitive(s: seq<int>, t: seq<int>, u: seq<int>)
    requires CompareSeqs(s, t, 0) <= 0 && CompareSeqs(t, u, 0) <= 0
    ensures CompareSeqs(s, u, 0) <= 0
    ensures CompareSeqs(s, t, 0) < 0 || CompareSeqs(t, u, 0) < 0 ==> CompareSeqs(s, u, 0) < 0
  {
    BeforeTotal(s, t);
    BeforeTotal(t, u);
    BeforeTotal(s, u);
    if Before(s, t) && Before(t, u) { BeforeTransitive(s, t, u); }
  }

  /** The left side is a string that goes on where the right side ends. */
  predicate Longer(a: Value, b: Value) {
    (a.Text? && b.Text? && Extends(a.chars, b.chars)) || (a.Binary? && b.Binary? && Extends(a.bytes, b.bytes))
  }

  function LessThan(a: Value, b: Value): bool
    requires Comparable(a, b)
  {
    Compare(a, b, 1).value < 0
  }

  function GreaterThan(a: Value, b: Value): bool
    requires Comparable(a, b)
  {
    Compare(a, b, 1).value > 0
  }

  lemma ExtendsBefore(s: seq<int>, t: seq<int>)
    requires Extends(s, t)
    ensures Before(t, s) && !Before(s, t)
  {
    CommonIs(s, t, |t|);
    CommonIs(t, s, |t|);
  }

  /** < and >= always agree with the order; >, <= and != do so exactly if the left side is not longer in this way. */
  lemma OperatorsAgree(a: Value, b: Value)
    requires Comparable(a, b)
    ensures LessThan(a, b) <==> Compare(a, b, 0).value < 0
    ensures (GreaterThan(a, b) <==> Compare(a, b, 0).value > 0) <==> !Longer(a, b)
    ensures (Compare(a, b, 1) != Some(0) <==> Compare(a, b, 0) != Some(0)) <==> !Longer(a, b)
    ensures Longer(a, b) ==> !GreaterThan(a, b) && Compare(a, b, 0) == Some(1)
  {
    hide Before;
    if Longer(a, b) {
      if a.Text? { ExtendsBefore(a.chars, b.chars); } else { ExtendsBefore(a.bytes, b.bytes); }
    }
  }

  /** On strings of one length, and on everything that is not a string, all operators agree with the order. */
  lemma FixedLength(a: Value, b: Value)
    requires Comparable(a, b)
    requires (a.Text? && b.Text? ==> |a.chars| == |b.chars|) && (a.Binary? && b.Binary? ==> |a.bytes| == |b.bytes|)
    ensures LessThan(a, b) <==> Compare(a, b, 0).value < 0
    ensures GreaterThan(a, b) <==> Compare(a, b, 0).value > 0
    ensures Compare(a, b, 1) == Compare(a, b, 0)
  {
    hide Before;
    OperatorsAgree(a, b);
  }

  /** What comes between a string and its extension in the dictionary extends it too. */
  lemma BetweenExtends(b: seq<int>, c: seq<int>, a: seq<int>)
    requires Extends(a, b) && Before(b, c) && (c == a || Before(c, a))
    ensures Extends(c, b)
  {
    var k := Common(b, c);
    if k < |b| && c != a {
      assert a[..|b|][k] == a[k] && a[..|b|][..k] == a[..k];
      CommonIs(c, a, k);
    }
    if k == |b| { assert b[..k] == b; }
  }

  lemma ExtendsTransitive(a: seq<int>, b: seq<int>, c: seq<int>)
    requires Extends(a, b) && Extends(b, c)
    ensures Extends(a, c)
  {
    assert a[..|c|] == a[..|b|][..|c|];
  }

  /** <= on strings. */
  predicate Lteq(a: seq<int>, b: seq<int>) { CompareSeqs(a, b, 1) <= 0 }

  lemma LteqIs(a: seq<int>, b: seq<int>)
    ensures Lteq(a, b) <==> a == b || Before(a, b) || Extends(a, b)
    ensures !Lteq(a, b) <==> Before(b, a) && !Extends(a, b)
    ensures Lteq(a, b) <==> !GreaterThan(Text(a), Text(b))
    ensures Lteq(a, b) <==> !GreaterThan(Binary(a), Binary(b))
  {
    hide Before;
    BeforeTotal(a, b);
    if Extends(a, b) { ExtendsBefore(a, b); }
  }

  /** Two extensions of one string that part ways behind it. */
  predicate Fork(x: seq<int>, y: seq<int>, z: seq<int>) {
    Extends(y, x) && Extends(z, x) && y != z && !Extends(y, z) && !Extends(z, y)
  }

  /** The only way in which <= can fail to be transitive. */
  lemma LteqFails(a: seq<int>, b: seq<int>, c: seq<int>)
    ensures Lteq(a, b) && Lteq(b, c) && !Lteq(a, c) <==> Fork(b, a, c) && Before(c, a)
  {
    hide Before;
    LteqIs(a, b);
    LteqIs(b, c);
    LteqIs(a, c);
    BeforeTotal(a, c);
    if Lteq(a, b) && Lteq(b, c) && !Lteq(a, c) {
      if !Extends(a, b) {
        if Before(b, c) && Before(a, b) { BeforeTransitive(a, b, c); }
        if Extends(b, c) && a != b { BetweenExtends(c, a, b); }
      } else if !Extends(b, c) {
        if b != c { BetweenExtends(b, c, a); }
        if Extends(c, a) { ExtendsBefore(c, a); }
      } else {
        ExtendsTransitive(a, b, c);
      }
    }
    if Fork(b, a, c) { ExtendsBefore(c, b); }
  }

  ghost predicate LteqTransitiveOn(s: iset<seq<int>>) {
    forall a, b, c :: a in s && b in s && c in s && Lteq(a, b) && Lteq(b, c) ==> Lteq(a, c)
  }

  /** <= is transitive on a set of strings exactly if no string in it has two extensions in it that part ways. */
  lemma LteqTransitiveIff(s: iset<seq<int>>)
    ensures LteqTransitiveOn(s) <==> !exists x, y, z :: x in s && y in s && z in s && Fork(x, y, z)
  {
    hide Lteq, Fork, Before;
    if LteqTransitiveOn(s) {
      forall x, y, z | x in s && y in s && z in s ensures !Fork(x, y, z) {
        LteqFails(y, x, z);
        LteqFails(z, x, y);
        ForkParts(x, y, z);
      }
    } else {
      var a, b, c :| a in s && b in s && c in s && Lteq(a, b) && Lteq(b, c) && !Lteq(a, c);
      LteqFails(a, b, c);
    }
  }

  lemma ForkParts(x: seq<int>, y: seq<int>, z: seq<int>)
    ensures Fork(x, y, z) ==> Fork(x, z, y) && (Before(y, z) || Before(z, y))
  {
    BeforeTotal(y, z);
  }

  /** > is transitive on all strings. */
  lemma GreaterTransitive(a: seq<int>, b: seq<int>, c: seq<int>)
    requires GreaterThan(Text(a), Text(b)) && GreaterThan(Text(b), Text(c))
    ensures GreaterThan(Text(a), Text(c))
  {
    hide Before;
    LteqIs(a, b);
    LteqIs(b, c);
    LteqIs(a, c);
    BeforeTransitive(c, b, a);
    if Extends(a, c) { BetweenExtends(c, b, a); }
  }

  /** With letters for numbers: ax <= a and a <= aa, but not ax <= aa. */
  lemma LteqNotTransitive()
    ensures var ax, x, aa := Text([1, 2]), Text([1]), Text([1, 1]);
            !GreaterThan(ax, x) && !GreaterThan(x, aa) && GreaterThan(ax, aa) && Fork(x.chars, ax.chars, aa.chars)
  {
    CommonIs([1, 2], [1], 1);
    CommonIs([1], [1, 2], 1);
    CommonIs([1], [1, 1], 1);
    CommonIs([1, 1], [1], 1);
    CommonIs([1, 2], [1, 1], 1);
    CommonIs([1, 1], [1, 2], 1);
  }

  // ----- the comparator of asort -----

  /** What evaluating the compare block gives. */
  datatype Answer = Yes(holds: bool) | Rank(n: int) | Wrong

  datatype Key = NoKey | Direction(up: bool) | By(block: (Value, Value) -> Answer)

  /** A block that asks one operator both ways gives three answers. */
  function TwoWay(f1: bool, f2: bool): int { if f1 == f2 then 0 else if f1 then -1 else 1 }

  function Comparator(key: Key, x: Value, y: Value): Option<int> {
    match key
    case NoKey => Compare(x, y, 0)
    case Direction(up) => if up then Compare(x, y, 0) else Compare(y, x, 0)
    case By(block) =>
      match block(x, y)
      case Yes(f1) => if block(y, x).Yes? then Some(TwoWay(f1, block(y, x).holds)) else None
      case Rank(n) => Some(n)
      case Wrong => None
  }

  /** With a key of true the order is that of no key, with false it is turned round. A number that a block returns is the
      result; a flag is asked for both ways round. */
  lemma ComparatorMeans(block: (Value, Value) -> Answer, x: Value, y: Value)
    ensures Comparator(NoKey, x, y) == Compare(x, y, 0)
    ensures Comparator(Direction(true), x, y) == Compare(x, y, 0)
    ensures Comparator(Direction(false), x, y) == Compare(y, x, 0)
    ensures block(x, y).Rank? ==> Comparator(By(block), x, y) == Some(block(x, y).n)
    ensures block(x, y).Wrong? ==> Comparator(By(block), x, y) == None
    ensures block(x, y).Yes? && !block(y, x).Yes? ==> Comparator(By(block), x, y) == None
    ensures block(x, y) == Yes(true) && block(y, x) == Yes(false) ==> Comparator(By(block), x, y) == Some(-1)
    ensures block(x, y) == Yes(false) && block(y, x) == Yes(true) ==> Comparator(By(block), x, y) == Some(1)
    ensures block(x, y).Yes? && block(x, y) == block(y, x) ==> Comparator(By(block), x, y) == Some(0)
  {
    hide Compare;
  }

  function BlockLt(x: Value, y: Value): Answer { if Comparable(x, y) then Yes(LessThan(x, y)) else Wrong }
  function BlockGteq(x: Value, y: Value): Answer { if Comparable(x, y) then Yes(!LessThan(x, y)) else Wrong }
  function BlockLteq(x: Value, y: Value): Answer { if Comparable(x, y) then Yes(!GreaterThan(x, y)) else Wrong }
  function BlockGt(x: Value, y: Value): Answer { if Comparable(x, y) then Yes(GreaterThan(x, y)) else Wrong }

  /** Sorting by a block with < is sorting by mode 0, with >= by mode 0 backwards. With <= and > that is so for two
      values exactly if neither is longer in the way that confuses these operators. */
  lemma SortingBlocks(x: Value, y: Value)
    requires Comparable(x, y)
    ensures Comparator(By(BlockLt), x, y) == Comparator(NoKey, x, y)
    ensures Comparator(By(BlockGteq), x, y) == Comparator(Direction(false), x, y)
    ensures Comparator(By(BlockLteq), x, y) == Comparator(NoKey, x, y) <==> !Longer(x, y) && !Longer(y, x)
    ensures Comparator(By(BlockGt), x, y) == Comparator(Direction(false), x, y) <==> !Longer(x, y) && !Longer(y, x)
  {
    hide Compare, Longer;
    CompareAntisymmetric(x, y);
    CompareBounds(x, y);
    OperatorsAgree(x, y);
    OperatorsAgree(y, x);
  }

  lemma CompareBounds(x: Value, y: Value)
    requires Comparable(x, y)
    ensures Compare(x, y, 0).Some? && Compare(x, y, 1).Some? && -1 <= Compare(x, y, 0).value <= 1
    ensures Comparable(y, x) && Compare(y, x, 0).Some? && Compare(y, x, 1).Some? && -1 <= Compare(y, x, 0).value <= 1
  {
  }

  /** What a sorting procedure needs of a comparator on a set of strings: it is a consistent weak order. */
  ghost predicate WeakOrder(key: Key, s: iset<seq<int>>) {
    && (forall x, y :: x in s && y in s ==> Below(key, x, y) || Below(key, y, x))
    && (forall x, y :: x in s && y in s ==> Exchanged(key, x, y))
    && forall x, y, z :: x in s && y in s && z in s && Below(key, x, y) && Below(key, y, z) ==> Below(key, x, z)
  }

  predicate Below(key: Key, x: seq<int>, y: seq<int>) {
    var c := Comparator(key, Text(x), Text(y));
    c.Some? && c.value <= 0
  }

  /** The result changes its sign when the sides are exchanged. */
  predicate Exchanged(key: Key, x: seq<int>, y: seq<int>) {
    var c, d := Comparator(key, Text(x), Text(y)), Comparator(key, Text(y), Text(x));
    c.Some? && d.Some? && d.value == -c.value
  }

  lemma LteqBelow(x: seq<int>, y: seq<int>)
    ensures Below(By(BlockLteq), x, y) <==> Lteq(x, y)
    ensures Below(By(BlockGt), x, y) <==> Lteq(y, x)
    ensures Exchanged(By(BlockLteq), x, y) && Exchanged(By(BlockGt), x, y) && (Lteq(x, y) || Lteq(y, x))
  {
    hide Before, Compare;
    LteqIs(x, y);
    LteqIs(y, x);
    BeforeTotal(x, y);
  }

  /** Sorting by a block with <= or > is well defined on a set of strings exactly if no string in it has two extensions in
      it that part ways. */
  lemma LteqSortsIff(s: iset<seq<int>>)
    ensures WeakOrder(By(BlockLteq), s) <==> !exists x, y, z :: x in s && y in s && z in s && Fork(x, y, z)
    ensures WeakOrder(By(BlockGt), s) <==> !exists x, y, z :: x in s && y in s && z in s && Fork(x, y, z)
  {
    hide Below, Exchanged, Lteq, Fork;
    forall x, y ensures Below(By(BlockLteq), x, y) <==> Lteq(x, y) { LteqBelow(x, y); }
    forall x, y ensures Below(By(BlockGt), x, y) <==> Lteq(y, x) { LteqBelow(x, y); }
    forall x, y ensures Exchanged(By(BlockLteq), x, y) && Exchanged(By(BlockGt), x, y) && (Lteq(x, y) || Lteq(y, x)) {
      LteqBelow(x, y);
    }
    LteqTransitiveIff(s);
  }

  lemma LtBelow(x: seq<int>, y: seq<int>)
    ensures Below(By(BlockLt), x, y) <==> CompareSeqs(x, y, 0) <= 0
    ensures Below(By(BlockGteq), x, y) <==> CompareSeqs(y, x, 0) <= 0
    ensures Exchanged(By(BlockLt), x, y) && Exchanged(By(BlockGteq), x, y)
    ensures CompareSeqs(x, y, 0) <= 0 || CompareSeqs(y, x, 0) <= 0
  {
    SortingBlocks(Text(x), Text(y));
    SortingBlocks(Text(y), Text(x));
    CompareAntisymmetric(Text(x), Text(y));
    hide BlockLt, BlockGteq, Before, CompareSeqs;
  }

  /** Sorting by a block with < or >= is well defined on every set of strings. */
  lemma LtSorts(s: iset<seq<int>>)
    ensures WeakOrder(By(BlockLt), s) && WeakOrder(By(BlockGteq), s)
  {
    hide Below, Exchanged, CompareSeqs;
    forall x, y ensures Below(By(BlockLt), x, y) <==> CompareSeqs(x, y, 0) <= 0 { LtBelow(x, y); }
    forall x, y ensures Below(By(BlockGteq), x, y) <==> CompareSeqs(y, x, 0) <= 0 { LtBelow(x, y); }
    forall x, y ensures Exchanged(By(BlockLt), x, y) && Exchanged(By(BlockGteq), x, y) { LtBelow(x, y); }
    forall x, y ensures CompareSeqs(x, y, 0) <= 0 || CompareSeqs(y, x, 0) <= 0 { LtBelow(x, y); }
    forall x, y, z | CompareSeqs(x, y, 0) <= 0 && CompareSeqs(y, z, 0) <= 0 ensures CompareSeqs(x, z, 0) <= 0 {
      SeqsTransitive(x, y, z);
    }
  }

  // ----- on the value stack -----

  /** What lies on the stack: operands, the key asort sorts by, and what a block has returned. */
  datatype Item = Operand(value: Value) | SortKey(key: Key) | Returned(answer: Answer)

  datatype Name = Eqeq | Neeq | Lt | Gt | Lteq | Gteq

  /** What the operators mean, in terms of the order: the last three disagree with it when the left side is longer. */
  predicate Holds(name: Name, a: Value, b: Value)
    requires Comparable(a, b)
  {
    var c := Compare(a, b, 0).value;
    match name
    case Eqeq => c == 0
    case Lt => c < 0
    case Gteq => c >= 0
    case Neeq => c != 0 && !Longer(a, b)
    case Gt => c > 0 && !Longer(a, b)
    case Lteq => c <= 0 || Longer(a, b)
  }

  /** What the operators say of two numbers, and of two strings. */
  lemma OperatorsMean(a: Value, b: Value)
    ensures a.Number? && b.Number? ==>
      && (Holds(Eqeq, a, b) <==> a.number == b.number) && (Holds(Neeq, a, b) <==> a.number != b.number)
      && (Holds(Lt, a, b) <==> a.number < b.number) && (Holds(Gt, a, b) <==> a.number > b.number)
      && (Holds(Name.Lteq, a, b) <==> a.number <= b.number) && (Holds(Gteq, a, b) <==> a.number >= b.number)
    ensures a.Text? && b.Text? ==>
      && (Holds(Eqeq, a, b) <==> a.chars == b.chars) && (Holds(Neeq, a, b) <==> !(b.chars <= a.chars))
      && (Holds(Lt, a, b) <==> Earlier(a.chars, b.chars)) && (Holds(Gteq, a, b) <==> !Earlier(a.chars, b.chars))
      && (Holds(Gt, a, b) <==> Earlier(b.chars, a.chars) && !(b.chars <= a.chars))
      && (Holds(Name.Lteq, a, b) <==> !Earlier(b.chars, a.chars) || b.chars <= a.chars)
  {
    if a.Text? && b.Text? {
      SeqsMean(a.chars, b.chars, 0);
      SeqsMean(a.chars, b.chars, 1);
      TextsMean(a.chars, b.chars);
      hide CompareSeqs, Earlier;
    }
  }

  lemma TextsMean(s: seq<int>, t: seq<int>)
    ensures s == t <==> !Earlier(s, t) && !Earlier(t, s)
    ensures t <= s ==> !Earlier(s, t)
    ensures CompareSeqs(s, t, 0) in {-1, 0, 1} && CompareSeqs(s, t, 1) in {-1, 0, 1}
  {
    EarlierBefore(s, t);
    EarlierBefore(t, s);
    BeforeTotal(s, t);
    hide Earlier, Before;
    if t <= s && t != s {
      assert s[..|t|] == t;
      ExtendsBefore(s, t);
    }
  }

  class Evaluator {
    var stack: seq<Item>

    predicate TwoOperands()
      reads this
    {
      |stack| >= 2 && stack[|stack| - 1].Operand? && stack[|stack| - 2].Operand?
    }

    /** The comparison all operators start with: both operands are popped, unless they cannot be compared. */
    method PopCompared(mode: int) returns (r: Option<int>)
      requires TwoOperands()
      modifies this
      ensures r == Compare(old(stack)[|old(stack)| - 2].value, old(stack)[|old(stack)| - 1].value, mode)
      ensures stack == if r.Some? then old(stack)[..|old(stack)| - 2] else old(stack)
    {
      var a, b := stack[|stack| - 2].value, stack[|stack| - 1].value;
      r := Stdcmp(a, b, mode);
      if r.Some? {
        stack := stack[..|stack| - 2];
      }
    }

    /** eqeq, lt, gt, lteq and gteq: the operands are replaced by a flag. */
    method Operator(name: Name) returns (raised: bool)
      requires TwoOperands()
      modifies this
      ensures var n, a, b := |old(stack)|, old(stack)[|old(stack)| - 2].value, old(stack)[|old(stack)| - 1].value;
              if raised then stack == old(stack) && !Comparable(a, b)
              else Comparable(a, b) && stack == old(stack)[..n - 2] + [Operand(Flag(if Holds(name, a, b) then 1 else 0))]
    {
      var r := PopCompared(if name.Eqeq? then 0 else 1);
      if r.None? {
        return true;
      }
      var f := match name
        case Eqeq => r.value == 0
        case Neeq => r.value != 0
        case Lt => r.value < 0
        case Gt => r.value > 0
        case Lteq => !(r.value > 0)
        case Gteq => !(r.value < 0);
      stack := stack + [Operand(Flag(if f then 1 else 0))];
      raised := false;
    }

    /** A compare block is evaluated: it and its operands are replaced by what it returns. */
    method Eval3()
      requires |stack| >= 3 && stack[|stack| - 3].SortKey? && stack[|stack| - 3].key.By? && TwoOperands()
      modifies this
      ensures var n, s := |old(stack)|, old(stack);
              stack == s[..n - 3] + [Returned(s[n - 3].key.block(s[n - 2].value, s[n - 1].value))]
    {
      var n := |stack|;
      var answer := stack[n - 3].key.block(stack[n - 2].value, stack[n - 1].value);
      stack := stack[..n - 3] + [Returned(answer)];
    }

    /** valuecompare_cmp: what qsort is given. The key stays on top of the stack. */
    method ValueCompare(x: Value, y: Value) returns (r: Option<int>)
      requires |stack| >= 1 && stack[|stack| - 1].SortKey?
      modifies this
      ensures r == Comparator(old(stack)[|old(stack)| - 1].key, x, y) && (r.Some? ==> stack == old(stack))
    {
      var top := stack[|stack| - 1];
      if top.key.NoKey? {
        r := Stdcmp(x, y, 0);
      } else if top.key.Direction? {
        if top.key.up { r := Stdcmp(x, y, 0); } else { r := Stdcmp(y, x, 0); }
      } else {
        var base := stack;
        stack := stack + [top, Operand(x), Operand(y)];
        Eval3();
        assert stack[..|stack| - 1] == base;
        var first := stack[|stack| - 1].answer;
        stack := stack[..|stack| - 1];
        if first.Wrong? {
          return None;
        } else if first.Rank? {
          return Some(first.n);
        }
        stack := stack + [top, Operand(y), Operand(x)];
        Eval3();
        assert stack[..|stack| - 1] == base;
        var second := stack[|stack| - 1].answer;
        stack := stack[..|stack| - 1];
        if !second.Yes? {
          return None;
        }
        r := Some(if first.holds == second.holds then 0 else if first.holds then -1 else 1);
      }
    }
  }

  // ----- the range asort sorts -----

  const U32: nat := 0x1_0000_0000

  /** The clamping in asort, on unsigned numbers. */
  method Clamp(start0: nat, count0: nat, len: nat) returns (start: nat, count: nat)
    requires start0 < U32 && count0 < U32 && len < U32
    ensures count > 1 ==> 1 <= start && start - 1 + count <= len
    ensures if count > 1 then forall i: nat :: Asked(start0, count0, len, i) <==> start <= i < start + count
            else forall i: nat, j: nat :: Asked(start0, count0, len, i) && Asked(start0, count0, len, j) ==> i == j
  {
    start, count := start0, count0;
    start := if start > 1 then start else 1;
    start := if start < len then start else len;
    if count == 0 {
      count := len;
    }
    var rest := (len - start + 1) % U32;
    count := if count < rest then count else rest;
  }

  /** Element i is one of those from start on, counted from 1; at most count of them, or all if that is 0. */
  predicate Asked(start: nat, count: nat, len: nat, i: nat) {
    var first := if start == 0 then 1 else start;
    first <= i <= len && (count == 0 || i < first + count)
  }
}
