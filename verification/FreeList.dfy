/** The free list of ccclib/src/variable.cpp, threaded through the link fields of a table.

    One consumer (a mutator holding the table lock) takes cells at the head `next`; one producer
    (the sweeping collector) appends cells behind the tail `last`. Every constructor of `Move` is one
    uninterrupted access to the shared fields, so any interleaving of the two sides is a run of moves. */
module FreeList {

  /** The collector's progress in handing one cell back. */
  datatype Release = Resting | Claimed(cell: nat) | Linked(tail: nat) | Advanced

  /** passed: a mutator has left the wait loop and not yet taken the cell. owed: cells taken whose count
      down of `free` is still to come (vref_new unlocks the table before it counts). */
  datatype List = List(link: seq<int>, next: int, last: int, free: int, release: Release, passed: bool, owed: nat)

  datatype Move =
    | Check            // the exit of the wait loop: next differs from last
    | Unlink           // next := link of the cell, link of the cell := -1
    | CountDown        // free count down
    | Claim(n: nat)    // the collector found cell n allocated and white
    | Append           // link of the tail := the claimed cell
    | Advance          // last := the claimed cell
    | CountUp          // free count up

  function Initial(size: nat): List
    requires size > 0
  {
    List(seq(size, n => n + 1), 0, size - 1, size - 1, Resting, false, 0)
  }

  predicate Enabled(l: List, m: Move) {
    match m
    case Check => !l.passed && l.next != l.last
    case Unlink => l.passed && 0 <= l.next < |l.link|
    case CountDown => l.owed > 0
    case Claim(n) => l.release == Resting && n < |l.link| && l.link[n] == -1 && n != l.last
    case Append => l.release.Claimed? && 0 <= l.last < |l.link|
    case Advance => l.release.Linked?
    case CountUp => l.release == Advanced
  }

  function Apply(l: List, m: Move): List
    requires Enabled(l, m)
  {
    match m
    case Check => l.(passed := true)
    case Unlink => l.(next := l.link[l.next], link := l.link[l.next := -1], passed := false, owed := l.owed + 1)
    case CountDown => l.(free := l.free - 1, owed := l.owed - 1)
    case Claim(n) => l.(release := Claimed(n))
    case Append => l.(link := l.link[l.last := l.release.cell], release := Linked(l.release.cell))
    case Advance => l.(last := l.release.tail, release := Advanced)
    case CountUp => l.(free := l.free + 1, release := Resting)
  }

  /** Cell n belongs to a mutator: this is what sweep tests before it looks at the colour. */
  predicate Allocated(l: List, n: nat) {
    n < |l.link| && l.link[n] == -1 && n != l.last && !InHand(l, n)
  }

  /** Cell n is between being found white and being the tail of the list. */
  predicate InHand(l: List, n: nat) {
    l.release == Claimed(n) || l.release == Linked(n)
  }

  predicate AtRest(l: List) {
    l.release == Resting && l.owed == 0
  }

  ghost predicate Distinct(q: seq<nat>) {
    forall i, j :: 0 <= i < j < |q| ==> q[i] != q[j]
  }

  /** q is the content of the list, head first. */
  ghost predicate Holds(l: List, q: seq<nat>) {
    && |q| > 0 && Distinct(q)
    && (forall i :: 0 <= i < |q| ==> q[i] < |l.link|)
    && q[0] == l.next && q[|q| - 1] == l.last
    && (forall i, j :: 0 <= i < j < |q| && j <= i + 1 ==> l.link[q[i]] == q[j])
    && (forall n: nat :: n < |l.link| && n !in q ==> l.link[n] == -1)
    && (forall n: nat :: InHand(l, n) ==> n < |l.link| && n !in q)
    && (l.release.Linked? ==> l.link[l.last] == l.release.tail)
    && (l.passed ==> |q| >= 2)
    && l.free == |q| - 1 - (if l.release == Advanced then 1 else 0) + l.owed
  }

  ghost predicate Sound(l: List) {
    exists q: seq<nat> :: Holds(l, q)
  }

  /** The content after a move. */
  ghost function Content(l: List, q: seq<nat>, m: Move): seq<nat>
    requires Holds(l, q) && Enabled(l, m)
  {
    match m
    case Unlink => q[1..]
    case Advance => q + [l.release.tail]
    case _ => q
  }

  ghost function Upto(size: nat): (q: seq<nat>)
    ensures |q| == size && forall n :: 0 <= n < size ==> q[n] == n
  {
    if size == 0 then [] else Upto(size - 1) + [size - 1]
  }

  lemma InitialHolds(size: nat)
    requires size > 0
    ensures Holds(Initial(size), Upto(size))
  {
    var q := Upto(size);
    forall n: nat | n < size ensures n in q {
      assert q[n] == n;
    }
  }

  lemma UnlinkKeeps(l: List, q: seq<nat>)
    requires Holds(l, q) && Enabled(l, Unlink)
    ensures Holds(Apply(l, Unlink), q[1..])
  {
    var l', r := Apply(l, Unlink), q[1..];
    assert q == [q[0]] + r && l'.link == l.link[q[0] := -1];
    assert l.link[q[0]] == q[1];
    forall i, j | 0 <= i < j < |r| ensures r[i] != r[j] { assert r[i] == q[i + 1] && r[j] == q[j + 1]; }
    forall i, j | 0 <= i < j < |r| && j <= i + 1 ensures l'.link[r[i]] == r[j] {
      assert r[i] == q[i + 1] != q[0] && r[j] == q[j + 1];
    }
    forall n: nat | n < |l'.link| && n !in r ensures l'.link[n] == -1 {
      assert n != q[0] ==> n !in q;
    }
    forall n: nat | InHand(l', n) ensures n < |l'.link| && n !in r {
      assert InHand(l, n);
      assert n in r ==> n in q;
    }
  }

  lemma AdvanceKeeps(l: List, q: seq<nat>)
    requires Holds(l, q) && Enabled(l, Advance)
    ensures Holds(Apply(l, Advance), q + [l.release.tail])
  {
    var t := l.release.tail;
    var l', r := Apply(l, Advance), q + [t];
    assert InHand(l, t) && l'.link == l.link;
    assert forall n: nat :: n in r <==> n in q || n == t;
    assert forall i :: 0 <= i < |q| ==> r[i] == q[i] && q[i] in q;
    assert r[|r| - 1] == t;
    forall i, j | 0 <= i < j < |r| && j <= i + 1 ensures l'.link[r[i]] == r[j] {
      if j == |q| { assert q[i] == l.last; } else { assert l.link[q[i]] == q[j]; }
    }
    forall n: nat | InHand(l', n) ensures false {}
  }

  lemma AppendKeeps(l: List, q: seq<nat>)
    requires Holds(l, q) && Enabled(l, Append)
    ensures Holds(Apply(l, Append), q)
  {
    var l' := Apply(l, Append);
    assert InHand(l, l.release.cell);
    assert q[|q| - 1] in q;
    forall n: nat | InHand(l', n) ensures n < |l'.link| && n !in q {
      assert InHand(l, n);
    }
  }

  lemma ClaimKeeps(l: List, q: seq<nat>, c: nat)
    requires Holds(l, q) && Enabled(l, Claim(c))
    ensures Holds(Apply(l, Claim(c)), q)
  {
    forall i | 0 <= i < |q| ensures q[i] == l.last || l.link[q[i]] >= 0 {
      assert i < |q| - 1 ==> l.link[q[i]] == q[i + 1];
    }
  }

  lemma CountKeeps(l: List, q: seq<nat>, m: Move)
    requires Holds(l, q) && Enabled(l, m) && (m.Check? || m.CountDown? || m.CountUp?)
    ensures Holds(Apply(l, m), q)
  {
    assert forall n: nat :: InHand(Apply(l, m), n) ==> InHand(l, n);
    assert l.next != l.last ==> |q| >= 2;
  }

  /** Every interleaving keeps the list: the producer only extends it, the consumer only takes its head. */
  lemma MoveKeeps(l: List, q: seq<nat>, m: Move)
    requires Holds(l, q) && Enabled(l, m)
    ensures Holds(Apply(l, m), Content(l, q, m))
  {
    match m
    case Unlink => UnlinkKeeps(l, q);
    case Advance => AdvanceKeeps(l, q);
    case Append => AppendKeeps(l, q);
    case Claim(c) => ClaimKeeps(l, q, c);
    case _ => CountKeeps(l, q, m);
  }

  ghost predicate Runs(l: List, ms: seq<Move>)
    decreases |ms|
  {
    ms == [] || (Enabled(l, ms[0]) && Runs(Apply(l, ms[0]), ms[1..]))
  }

  ghost function After(l: List, ms: seq<Move>): List
    requires Runs(l, ms)
    decreases |ms|
  {
    if ms == [] then l else After(Apply(l, ms[0]), ms[1..])
  }

  lemma {:induction false} RunKeeps(l: List, ms: seq<Move>)
    requires Sound(l) && Runs(l, ms)
    ensures Sound(After(l, ms))
    decreases |ms|
  {
    if ms != [] {
      var q: seq<nat> :| Holds(l, q);
      MoveKeeps(l, q, ms[0]);
      RunKeeps(Apply(l, ms[0]), ms[1..]);
    }
  }

  /** From vartab_ini on, whatever the interleaving, the list is sound. */
  lemma AlwaysSound(size: nat, ms: seq<Move>)
    requires size > 0 && Runs(Initial(size), ms)
    ensures Sound(After(Initial(size), ms))
  {
    InitialHolds(size);
    RunKeeps(Initial(size), ms);
  }

  /** Following k links from cell `from`. */
  function Walk(link: seq<int>, from: int, k: nat): int
    decreases k
  {
    if k == 0 then from
    else if 0 <= from < |link| then Walk(link, link[from], k - 1)
    else -1
  }

  lemma {:induction false} WalkFollows(l: List, q: seq<nat>, i: nat, k: nat)
    requires Holds(l, q) && i + k < |q|
    ensures Walk(l.link, q[i], k) == q[i + k]
    decreases k
  {
    if k > 0 {
      WalkFollows(l, q, i + 1, k - 1);
    }
  }

  /** The path from the head always reaches the tail, over free + 1 cells when both sides rest. */
  lemma HeadReachesTail(l: List)
    requires Sound(l)
    ensures exists k: nat :: Walk(l.link, l.next, k) == l.last
    ensures AtRest(l) ==> l.free >= 0 && Walk(l.link, l.next, l.free) == l.last
  {
    var q: seq<nat> :| Holds(l, q);
    WalkFollows(l, q, 0, |q| - 1);
  }

  /** What sweep tests about a cell is exactly being neither on the list nor in the collector's hand. */
  lemma AllocatedIffOffList(l: List, q: seq<nat>, n: nat)
    requires Holds(l, q) && n < |l.link|
    ensures Allocated(l, n) <==> n !in q && !InHand(l, n)
  {
    if n in q {
      var i :| 0 <= i < |q| && q[i] == n;
      assert i < |q| - 1 ==> l.link[n] == q[i + 1];
    } else {
      assert q[|q| - 1] in q;
    }
  }

  /** Taking a cell never touches the tail, even while the tail is being linked on, and turns exactly
      that cell from free into allocated. */
  lemma UnlinkTakesOne(l: List)
    requires Sound(l) && Enabled(l, Unlink)
    ensures l.next != l.last && Apply(l, Unlink).last == l.last
    ensures !Allocated(l, l.next) && Allocated(Apply(l, Unlink), l.next)
    ensures Apply(l, Unlink).link[l.last] == l.link[l.last]
    ensures forall n: nat :: n != l.next ==> Allocated(Apply(l, Unlink), n) == Allocated(l, n)
  {
    var q: seq<nat> :| Holds(l, q);
    AllocatedIffOffList(l, q, l.next);
    assert q[0] in q && q[0] != q[|q| - 1];
    assert InHand(l, l.next) ==> l.next !in q;
  }

  /** The remaining moves: only Claim takes a cell away from the mutators, and only an allocated one. */
  lemma OthersAllocate(l: List, m: Move, n: nat)
    requires Sound(l) && Enabled(l, m) && !m.Unlink?
    ensures Allocated(Apply(l, m), n) <==> Allocated(l, n) && m != Claim(n)
  {
    var q: seq<nat> :| Holds(l, q);
    MoveKeeps(l, q, m);
    var l', q' := Apply(l, m), Content(l, q, m);
    if n < |l.link| {
      AllocatedIffOffList(l, q, n);
      AllocatedIffOffList(l', q', n);
      if m == Advance {
        assert n in q' <==> n in q || n == l.release.tail;
        assert InHand(l, l.release.tail);
      }
    }
  }

  ghost function AllocatedCells(l: List): set<nat> {
    set n: nat | n < |l.link| && Allocated(l, n)
  }

  ghost function Below(size: nat): (r: set<nat>)
    ensures |r| == size && forall n: nat :: n in r <==> n < size
  {
    if size == 0 then {} else Below(size - 1) + {size - 1}
  }

  ghost function Elements(q: seq<nat>): (r: set<nat>)
    ensures forall n: nat :: n in r <==> n in q
  {
    set n | n in q
  }

  lemma {:induction false} DistinctCount(q: seq<nat>)
    requires Distinct(q)
    ensures |Elements(q)| == |q|
    decreases |q|
  {
    if |q| > 0 {
      var r, last := q[..|q| - 1], q[|q| - 1];
      DistinctCount(r);
      assert q == r + [last];
      assert last !in r;
      assert Elements(q) == Elements(r) + {last};
    }
  }

  /** Conservation: at rest, allocated cells, the free count and the one spare tail make up the table. */
  lemma Conservation(l: List)
    requires Sound(l) && AtRest(l)
    ensures |AllocatedCells(l)| + l.free + 1 == |l.link|
  {
    var q: seq<nat> :| Holds(l, q);
    DistinctCount(q);
    forall n: nat | n < |l.link| ensures Allocated(l, n) <==> n !in q {
      AllocatedIffOffList(l, q, n);
    }
    assert AllocatedCells(l) + Elements(q) == Below(|l.link|);
    assert AllocatedCells(l) !! Elements(q);
  }

  /** One whole release of an allocated cell: claim, link, tail, count. */
  lemma GiveOne(l: List, n: nat) returns (l1: List, l2: List, l3: List, l4: List)
    requires Sound(l) && l.release == Resting && Allocated(l, n)
    ensures Enabled(l, Claim(n)) && l1 == Apply(l, Claim(n))
    ensures Enabled(l1, Append) && l2 == Apply(l1, Append)
    ensures Enabled(l2, Advance) && l3 == Apply(l2, Advance)
    ensures Enabled(l3, CountUp) && l4 == Apply(l3, CountUp)
    ensures 0 <= l.last < |l.link| && l4 == l.(link := l.link[l.last := n], last := n, free := l.free + 1)
    ensures forall m: nat :: Allocated(l4, m) <==> Allocated(l, m) && m != n
  {
    hide Holds, Sound;
    EndsInside(l);
    l1 := Apply(l, Claim(n));
    StepSound(l, Claim(n));
    l2 := Apply(l1, Append);
    StepSound(l1, Append);
    l3 := Apply(l2, Advance);
    StepSound(l2, Advance);
    l4 := Apply(l3, CountUp);
    forall m: nat ensures Allocated(l4, m) <==> Allocated(l, m) && m != n {
      OthersAllocate(l, Claim(n), m);
      OthersAllocate(l1, Append, m);
      OthersAllocate(l2, Advance, m);
      OthersAllocate(l3, CountUp, m);
    }
  }

  lemma StepSound(l: List, m: Move)
    requires Sound(l) && Enabled(l, m)
    ensures Sound(Apply(l, m))
  {
    hide Holds, Apply, Enabled, Content;
    var q: seq<nat> :| Holds(l, q);
    MoveKeeps(l, q, m);
  }

  lemma EndsInside(l: List)
    requires Sound(l)
    ensures 0 <= l.next < |l.link| && 0 <= l.last < |l.link|
  {
  }

  /** One whole allocation: the wait loop is left, the head is taken, the count goes down. */
  lemma TakeOne(l: List) returns (l1: List, l2: List, l3: List)
    requires Sound(l) && !l.passed && l.next != l.last
    ensures Enabled(l, Check) && l1 == Apply(l, Check)
    ensures Enabled(l1, Unlink) && l2 == Apply(l1, Unlink)
    ensures Enabled(l2, CountDown) && l3 == Apply(l2, CountDown)
    ensures 0 <= l.next < |l.link|
    ensures l3 == l.(next := l.link[l.next], link := l.link[l.next := -1], free := l.free - 1)
    ensures !Allocated(l, l.next)
    ensures forall m: nat :: Allocated(l3, m) <==> Allocated(l, m) || m == l.next
  {
    hide Holds, Sound;
    EndsInside(l);
    l1 := Apply(l, Check);
    StepSound(l, Check);
    l2 := Apply(l1, Unlink);
    UnlinkTakesOne(l1);
    StepSound(l1, Unlink);
    l3 := Apply(l2, CountDown);
    forall m: nat ensures Allocated(l3, m) <==> Allocated(l, m) || m == l.next {
      OthersAllocate(l, Check, m);
      OthersAllocate(l2, CountDown, m);
    }
  }
}
