/** Exceptions (ccclib/src/break.cpp): the search for a handler, and the way out to it through the finally
    blocks of the sequences in between. What the code generated for begin sequence does around it
    (ccctools/ppo2cpp/codegen.cpp) is modelled too, so that whole throws can be followed. */
module Unwind {

  datatype Kind = Number | Date | Flag | Pointer | String | Binary | Array | Block

  /** A value, and also an entry of the using stack: End announces a finally block, Nil catches everything. */
  datatype Value = End | Nil | Typed(kind: Kind, bits: int) | Object(subtype: int, oref: int)

  predicate SameType(a: Value, b: Value) {
    (a.End? && b.End?) || (a.Nil? && b.Nil?) || (a.Object? && b.Object?)
    || (a.Typed? && b.Typed? && a.kind == b.kind)
  }

  /** isderivedfrom, as the set of pairs (class, ancestor). */
  type Classes = set<(int, int)>

  /** A recover with this entry takes exception x. */
  predicate Catches(classes: Classes, entry: Value, x: Value) {
    entry.Nil? || (SameType(entry, x) && (entry.Object? ==> (x.subtype, entry.subtype) in classes))
  }

  /** NIL takes everything, End nothing; an object takes the objects derived from it, any other value those of its type. */
  lemma CatchesWhat(classes: Classes, entry: Value, x: Value)
    ensures entry == Nil ==> Catches(classes, entry, x)
    ensures entry == End && x != End ==> !Catches(classes, entry, x)
    ensures entry.Typed? ==> (Catches(classes, entry, x) <==> x.Typed? && x.kind == entry.kind)
    ensures entry.Object? ==> (Catches(classes, entry, x) <==> x.Object? && (x.subtype, entry.subtype) in classes)
  {
  }

  /** A frame of the seqjmp stack. That the statement has a finally block is known to its generated code, which
      the jump returns to. */
  datatype Frame = Frame(stack: nat, trace: nat, base: nat, fin: bool)

  /** The top of the using stack while a recover of frame f runs: of its entries only the End is left. */
  function Kept(f: Frame): nat {
    f.base + if f.fin then 1 else 0
  }

  ghost predicate HasEnd(frames: seq<Frame>, k: nat) {
    exists f :: 0 <= f < |frames| && frames[f].base == k && frames[f].fin
  }

  /** The entries belong to the frames, in order. A frame with a finally block starts with an End, and there is no
      other. A frame whose recover is running owns no entry but that End. */
  ghost predicate Framed(entries: seq<Value>, frames: seq<Frame>) {
    && (if frames == [] then entries == [] else frames[0].base == 0)
    && (forall f, g :: 0 <= f < g < |frames| ==> Kept(frames[f]) <= frames[g].base && frames[f].stack <= frames[g].stack)
    && (forall f :: 0 <= f < |frames| ==> Kept(frames[f]) <= |entries|)
    && (forall f :: 0 <= f < |frames| && frames[f].fin ==> entries[frames[f].base].End?)
    && forall k :: 0 <= k < |entries| && entries[k].End? ==> HasEnd(frames, k)
  }

  /** The first n frames, with the entries in front of e, which lies among those of the last of them. */
  lemma FramedCut(entries: seq<Value>, frames: seq<Frame>, n: nat, e: nat)
    requires Framed(entries, frames) && 0 < n <= |frames| && Kept(frames[n - 1]) <= e <= |entries|
    requires forall g :: n <= g < |frames| ==> e <= frames[g].base
    ensures Framed(entries[..e], frames[..n])
  {
    var es, fs := entries[..e], frames[..n];
    forall k | 0 <= k < e && es[k].End? ensures HasEnd(fs, k) {
      assert HasEnd(frames, k);
      var f :| 0 <= f < |frames| && frames[f].base == k && frames[f].fin;
      assert f < n && fs[f] == frames[f];
    }
  }

  /** Leaving the frames from g on, together with their entries. */
  lemma FramedPrefix(entries: seq<Value>, frames: seq<Frame>, g: nat)
    requires Framed(entries, frames) && g < |frames|
    ensures frames[g].base <= |entries| && Framed(entries[..frames[g].base], frames[..g])
  {
    if g > 0 { FramedCut(entries, frames, g, frames[g].base); }
  }

  /** Frame f in its recover. */
  lemma FramedKept(entries: seq<Value>, frames: seq<Frame>, f: nat)
    requires Framed(entries, frames) && f < |frames|
    ensures Kept(frames[f]) <= |entries| && Framed(entries[..Kept(frames[f])], frames[..f + 1])
  {
    FramedCut(entries, frames, f + 1, Kept(frames[f]));
  }

  lemma StacksGrow(entries: seq<Value>, frames: seq<Frame>)
    requires Framed(entries, frames)
    ensures forall f, g :: 0 <= f < g < |frames| ==> frames[f].stack <= frames[g].stack
  {
  }

  /** Framed, and every frame's place on the value stack exists and has been passed. */
  ghost predicate Sound(entries: seq<Value>, frames: seq<Frame>, stack: nat, size: nat) {
    Framed(entries, frames) && forall f :: 0 <= f < |frames| ==> frames[f].stack <= stack && frames[f].stack < size
  }

  lemma SoundPopped(entries: seq<Value>, frames: seq<Frame>, stack: nat, size: nat, g: nat)
    requires Sound(entries, frames, stack, size) && g < |frames|
    ensures frames[g].base <= |entries| && frames[g].stack < size
    ensures Sound(entries[..frames[g].base], frames[..g], frames[g].stack + 1, size)
  {
    FramedPrefix(entries, frames, g);
  }

  lemma SoundKept(entries: seq<Value>, frames: seq<Frame>, stack: nat, size: nat, f: nat)
    requires Sound(entries, frames, stack, size) && f < |frames|
    ensures Kept(frames[f]) <= |entries| && frames[f].stack < size
    ensures Sound(entries[..Kept(frames[f])], frames[..f + 1], frames[f].stack + 1, size)
  {
    FramedKept(entries, frames, f);
  }

  lemma LowerStack(entries: seq<Value>, frames: seq<Frame>, g: nat, size: nat)
    requires g < |frames| && Sound(entries, frames[..g], frames[g].stack + 1, size)
    requires forall f :: 0 <= f < g ==> frames[f].stack <= frames[g].stack
    ensures Sound(entries, frames[..g], frames[g].stack, size)
  {
    assert forall f :: 0 <= f < g ==> frames[..g][f] == frames[f];
  }

  /** The frame that owns the entry in front of k: the last one that starts below k. */
  function Owner(frames: seq<Frame>, k: nat): (f: nat)
    requires |frames| > 0 && frames[0].base < k
    ensures f < |frames| && frames[f].base < k
    ensures forall g :: f < g < |frames| ==> frames[g].base >= k
  {
    var last := |frames| - 1;
    if frames[last].base < k then last else Owner(frames[..last], k)
  }

  /** k is the topmost compatible entry, counted from 1; 0 if there is none. */
  ghost predicate Picks(classes: Classes, entries: seq<Value>, x: Value, k: nat) {
    && k <= |entries|
    && (k > 0 ==> Catches(classes, entries[k - 1], x))
    && forall j :: k <= j < |entries| ==> !Catches(classes, entries[j], x)
  }

  /** What a throw does next: nothing is unwound; control goes to the finally block of a frame that has been left;
      or control goes to a recover, numbered from 1. */
  datatype Jump = Uncaught | Finally(frame: nat) | Recover(frame: nat, level: nat)

  /** The frames from hi - 1 down to lo that have a finally block. */
  function FinallyBlocks(frames: seq<Frame>, lo: nat, hi: nat): (r: seq<nat>)
    requires hi <= |frames|
  {
    if hi <= lo then []
    else (if frames[hi - 1].fin then [hi - 1] else []) + FinallyBlocks(frames, lo, hi - 1)
  }

  lemma {:induction false} BlocksFurther(frames: seq<Frame>, lo: nat, mid: nat, hi: nat)
    requires lo <= mid <= hi <= |frames|
    ensures FinallyBlocks(frames, lo, hi) == FinallyBlocks(frames, mid, hi) + FinallyBlocks(frames, lo, mid)
    decreases hi
  {
    if mid < hi { BlocksFurther(frames, lo, mid, hi - 1); }
  }

  lemma OneBlock(frames: seq<Frame>, m: nat)
    requires 0 < m <= |frames|
    ensures FinallyBlocks(frames, m - 1, m) == if frames[m - 1].fin then [m - 1] else []
  {
    assert FinallyBlocks(frames, m - 1, m - 1) == [];
  }

  lemma {:induction false} NoBlocks(frames: seq<Frame>, lo: nat, hi: nat)
    requires hi <= |frames| && forall g :: lo <= g < hi ==> !frames[g].fin
    ensures FinallyBlocks(frames, lo, hi) == []
    decreases hi
  {
    if lo < hi { NoBlocks(frames, lo, hi - 1); }
  }

  ghost predicate Descending(r: seq<nat>) {
    forall i, j :: 0 <= i < j < |r| ==> r[j] < r[i]
  }

  lemma FirstOfAll(x: nat, rest: seq<nat>)
    requires Descending(rest) && forall g :: g in rest ==> g < x
    ensures Descending([x] + rest) && forall g :: g in [x] + rest <==> g == x || g in rest
  {
    assert forall j :: 0 <= j < |rest| ==> rest[j] in rest;
  }

  lemma NothingDescends()
    ensures Descending([])
  {
  }

  lemma BlocksAre(frames: seq<Frame>, lo: nat, hi: nat)
    requires hi <= |frames|
    ensures FinallyBlocks(frames, lo, hi) == if hi <= lo then []
            else if frames[hi - 1].fin then [hi - 1] + FinallyBlocks(frames, lo, hi - 1)
            else FinallyBlocks(frames, lo, hi - 1)
  {
  }

  /** Each block with a finally is there exactly once, inner ones in front of outer ones. */
  lemma {:induction false} BlocksOnceInnermostFirst(frames: seq<Frame>, lo: nat, hi: nat)
    requires hi <= |frames|
    ensures forall g :: g in FinallyBlocks(frames, lo, hi) <==> lo <= g < hi && frames[g].fin
    ensures Descending(FinallyBlocks(frames, lo, hi))
    decreases hi
  {
    hide FinallyBlocks, Descending;
    BlocksAre(frames, lo, hi);
    if lo < hi {
      BlocksOnceInnermostFirst(frames, lo, hi - 1);
      if frames[hi - 1].fin { FirstOfAll(hi - 1, FinallyBlocks(frames, lo, hi - 1)); }
    } else {
      NothingDescends();
    }
  }

  class Thread {
    const usingbuf: array<Value>
    const seqbuf: array<Frame>
    const stackbuf: array<Value>
    const classes: Classes
    var usingstk: nat
    var seqjmp: nat
    var stack: nat
    var trace: nat

    ghost predicate Apart()
      reads this
    {
      usingbuf != stackbuf && stack <= stackbuf.Length
    }

    /** The pointers point to the first free place of each stack. */
    ghost predicate Valid()
      reads this, usingbuf, seqbuf, stackbuf
    {
      && Apart()
      && usingstk < usingbuf.Length && seqjmp <= seqbuf.Length
      && Sound(usingbuf[..usingstk], seqbuf[..seqjmp], stack, stackbuf.Length)
    }

    ghost function Entries(): seq<Value>
      reads this, usingbuf
      requires usingstk <= usingbuf.Length
    {
      usingbuf[..usingstk]
    }

    ghost function Frames(): seq<Frame>
      reads this, seqbuf
      requires seqjmp <= seqbuf.Length
    {
      seqbuf[..seqjmp]
    }

    /** The buffers hold these entries and frames, whatever the pointers say. */
    ghost predicate Holding(entries: seq<Value>, frames: seq<Frame>)
      reads usingbuf, seqbuf
    {
      && |frames| <= seqbuf.Length && (forall f :: 0 <= f < |frames| ==> seqbuf[f] == frames[f])
      && |entries| < usingbuf.Length && (forall i :: 0 <= i < |entries| ==> usingbuf[i] == entries[i])
    }

    lemma HoldingSlices(entries: seq<Value>, frames: seq<Frame>, n: nat, m: nat)
      requires Holding(entries, frames) && n <= |entries| && m <= |frames|
      ensures usingbuf[..n] == entries[..n] && seqbuf[..m] == frames[..m]
    {
    }

    /** The exception, and nothing else, lies where the frame's stack began. */
    ghost predicate Landed(f: Frame, x: Value)
      reads this, stackbuf
    {
      0 < stack == f.stack + 1 <= stackbuf.Length && stackbuf[stack - 1] == x && trace == f.trace
    }

    /** Frame g has been popped with its entries, and control is with its finally block. */
    ghost predicate AtFinally(entries: seq<Value>, frames: seq<Frame>, g: nat, x: Value)
      reads this, usingbuf, seqbuf, stackbuf
    {
      && g < |frames| && seqjmp == g < seqbuf.Length && seqbuf[g] == frames[g]
      && usingstk == frames[g].base <= usingbuf.Length && usingstk <= |entries|
      && Frames() == frames[..g] && Entries() == entries[..usingstk] && Landed(frames[g], x)
    }

    /** Frame f is the top frame, its recovers have been popped, and control is with one of them. */
    ghost predicate InRecover(entries: seq<Value>, frames: seq<Frame>, f: nat, x: Value)
      reads this, usingbuf, seqbuf, stackbuf
    {
      && f < |frames| && seqjmp == f + 1 <= seqbuf.Length
      && usingstk == Kept(frames[f]) <= usingbuf.Length
      && usingstk <= |entries| && Frames() == frames[..f + 1] && Entries() == entries[..usingstk] && Landed(frames[f], x)
    }

    constructor (usingSize: nat, seqSize: nat, stackSize: nat, known: Classes)
      requires usingSize > 0
      ensures Valid() && Frames() == [] && Entries() == [] && stack == 0 && classes == known
    {
      usingbuf := new Value[usingSize](_ => Nil);
      seqbuf := new Frame[seqSize](_ => Frame(0, 0, 0, false));
      stackbuf := new Value[stackSize](_ => Nil);
      classes := known;
      usingstk, seqjmp, stack, trace := 0, 0, 0, 0;
    }

    /** The search for a compatible recover, from the top of the using stack down. */
    method Search(x: Value) returns (usingstk1: nat)
      requires Valid()
      ensures Picks(classes, Entries(), x, usingstk1)
    {
      usingstk1 := usingstk;
      while usingstk1 > 0
        invariant usingstk1 <= usingstk
        invariant forall j :: usingstk1 <= j < usingstk ==> !Catches(classes, usingbuf[j], x)
      {
        var rcv := usingbuf[usingstk1 - 1];
        if rcv.Nil? {
          break;
        } else if SameType(rcv, x) {
          if !rcv.Object? {
            break;
          } else if (x.subtype, rcv.subtype) in classes {
            break;
          }
        }
        usingstk1 := usingstk1 - 1;
      }
    }

    /** Control passes to frame f: the exception is put where the frame's stack began. */
    method Land(f: nat, x: Value, keep: nat)
      requires f < seqbuf.Length && seqbuf[f].stack < stackbuf.Length
      modifies this`stack, this`trace, this`usingstk, stackbuf
      ensures stack == seqbuf[f].stack + 1 && trace == seqbuf[f].trace && usingstk == seqbuf[f].base + keep
      ensures stackbuf[seqbuf[f].stack] == x
      ensures forall i :: 0 <= i < stackbuf.Length && i != seqbuf[f].stack ==> stackbuf[i] == old(stackbuf[i])
    {
      stackbuf[seqbuf[f].stack] := x;
      stack := seqbuf[f].stack + 1;
      trace := seqbuf[f].trace;
      usingstk := seqbuf[f].base + keep;
    }

    /** Control goes to the finally block of the frame just popped. */
    method ToFinally(x: Value, ghost top: nat, ghost entries: seq<Value>, ghost frames: seq<Frame>)
      requires Apart() && seqjmp < |frames| && Holding(entries, frames)
      requires Sound(entries, frames, top, stackbuf.Length)
      modifies this`usingstk, this`stack, this`trace, stackbuf
      ensures Valid() && AtFinally(entries, frames, seqjmp, x) && stack == frames[seqjmp].stack + 1 <= stackbuf.Length
      ensures forall i :: 0 <= i < frames[seqjmp].stack ==> stackbuf[i] == old(stackbuf[i])
    {
      SoundPopped(entries, frames, top, stackbuf.Length, seqjmp);
      HoldingSlices(entries, frames, frames[seqjmp].base, seqjmp);
      assert seqjmp < seqbuf.Length && seqbuf[seqjmp] == frames[seqjmp] && |entries| < usingbuf.Length;
      hide Sound, Holding;
      Land(seqjmp, x, 0);
    }

    /** Control goes to a recover of the top frame, which keeps its End only. */
    method ToRecover(x: Value, fin: nat, ghost top: nat, ghost entries: seq<Value>, ghost frames: seq<Frame>)
      requires Apart() && 0 < seqjmp <= |frames| && Holding(entries, frames)
      requires Sound(entries, frames, top, stackbuf.Length) && frames[seqjmp - 1].base + fin == Kept(frames[seqjmp - 1])
      modifies this`usingstk, this`stack, this`trace, stackbuf
      ensures Valid() && InRecover(entries, frames, seqjmp - 1, x)
      ensures stack == frames[seqjmp - 1].stack + 1 <= stackbuf.Length
      ensures forall i :: 0 <= i < frames[seqjmp - 1].stack ==> stackbuf[i] == old(stackbuf[i])
    {
      SoundKept(entries, frames, top, stackbuf.Length, seqjmp - 1);
      HoldingSlices(entries, frames, Kept(frames[seqjmp - 1]), seqjmp);
      assert seqjmp <= seqbuf.Length && seqbuf[seqjmp - 1] == frames[seqjmp - 1] && |entries| < usingbuf.Length;
      hide Sound, Holding;
      Land(seqjmp - 1, x, fin);
    }

    /** _clp_break0. The frames above the one that owns the handler are popped; the first whose place in the using
        stack says that it has a finally block gets control before the others are. */
    method Break(argno: nat) returns (jump: Jump, ghost x: Value, ghost k: nat)
      requires Valid() && argno <= stack && (argno > 0 ==> !stackbuf[stack - argno].End?)
      modifies this`usingstk, this`seqjmp, this`stack, this`trace, stackbuf
      ensures Valid() && x == (if argno > 0 then old(stackbuf[stack - argno]) else Nil)
      ensures Picks(classes, old(Entries()), x, k) && (jump.Uncaught? <==> k == 0)
      ensures jump.Uncaught? ==>
        stackbuf[..] == old(stackbuf[..]) && stack == old(stack) && usingstk == old(usingstk) && seqjmp == old(seqjmp)
        && trace == old(trace)
      ensures !jump.Uncaught? ==>
        && jump.frame < old(seqjmp) && stack == old(Frames())[jump.frame].stack + 1 <= stackbuf.Length
        && (forall g :: jump.frame < g < old(seqjmp) ==> old(Frames())[g].base >= k && !old(Frames())[g].fin)
        && (forall i :: 0 <= i < old(Frames())[jump.frame].stack ==> stackbuf[i] == old(stackbuf[i]))
      ensures jump.Finally? ==>
        AtFinally(old(Entries()), old(Frames()), jump.frame, x) && k <= old(Frames())[jump.frame].base
      ensures jump.Recover? ==>
        InRecover(old(Entries()), old(Frames()), jump.frame, x) && AtRecover(old(Entries()), old(Frames()), k, jump)
    {
      var exception := if argno > 0 then stackbuf[stack - argno] else Nil;
      var usingstk1 := Search(exception);
      x, k, jump := exception, usingstk1, Uncaught;
      if usingstk1 > 0 {
        ghost var entries, frames := Entries(), Frames();
        hide Framed, AtRecover, Picks, AtFinally, InRecover, Valid;
        jump := Unwound(exception, usingstk1, entries, frames);
      }
    }

    /** The second half of _clp_break0, for a break that has found its recover. */
    method Unwound(exception: Value, usingstk1: nat, ghost entries: seq<Value>, ghost frames: seq<Frame>)
      returns (jump: Jump)
      requires Valid() && entries == Entries() && frames == Frames() && !exception.End?
      requires Picks(classes, entries, exception, usingstk1) && usingstk1 > 0
      modifies this`usingstk, this`seqjmp, this`stack, this`trace, stackbuf
      ensures Valid() && !jump.Uncaught? && jump.frame < |frames| && stack == frames[jump.frame].stack + 1 <= stackbuf.Length
      ensures forall g :: jump.frame < g < |frames| ==> frames[g].base >= usingstk1 && !frames[g].fin
      ensures forall i :: 0 <= i < frames[jump.frame].stack ==> stackbuf[i] == old(stackbuf[i])
      ensures jump.Finally? ==> AtFinally(entries, frames, jump.frame, exception) && usingstk1 <= frames[jump.frame].base
      ensures jump.Recover? ==> InRecover(entries, frames, jump.frame, exception) && AtRecover(entries, frames, usingstk1, jump)
    {
      SomeFrame(entries, frames);
      ghost var top := stack;
      assert Sound(entries, frames, top, stackbuf.Length);
      assert Apart() && usingstk == |entries| && seqjmp == |frames| && Holding(entries, frames);
      assert Framed(entries, frames) && usingstk1 <= |entries|;
      hide Framed, AtRecover, Picks, AtFinally, InRecover, Valid, Sound, Holding;
      var found := PopFrames(usingstk1, entries, frames);
      if found {
        jump := Finally(seqjmp);
        ToFinally(exception, top, entries, frames);
      } else {
        jump := PickRecover(exception, usingstk1, top, entries, frames);
      }
    }

    /** The level of the recover within its frame is worked out, and control goes there. */
    method PickRecover(x: Value, usingstk1: nat, ghost top: nat, ghost entries: seq<Value>, ghost frames: seq<Frame>)
      returns (jump: Jump)
      requires Apart() && seqjmp < |frames| && Holding(entries, frames)
      requires Sound(entries, frames, top, stackbuf.Length) && Framed(entries, frames) && frames[seqjmp].base < usingstk1
      requires Picks(classes, entries, x, usingstk1) && !x.End? && forall g :: seqjmp < g < |frames| ==> frames[g].base >= usingstk1
      modifies this`usingstk, this`seqjmp, this`stack, this`trace, stackbuf
      ensures Valid() && jump.Recover? && jump.frame == old(seqjmp) && InRecover(entries, frames, jump.frame, x)
      ensures AtRecover(entries, frames, usingstk1, jump) && stack == frames[jump.frame].stack + 1 <= stackbuf.Length
      ensures forall i :: 0 <= i < frames[jump.frame].stack ==> stackbuf[i] == old(stackbuf[i])
    {
      Recovering(entries, frames, seqjmp, usingstk1, x, classes);
      assert seqjmp < seqbuf.Length;
      var base := seqbuf[seqjmp].base;
      assert base == frames[seqjmp].base < |entries| && usingbuf[base] == entries[base];
      hide Framed, Sound, Picks, AtRecover, Holding, Valid, InRecover;
      var fin := if usingbuf[base].End? then 1 else 0;
      jump := Recover(seqjmp, usingstk1 - base - fin);
      seqjmp := seqjmp + 1;
      ToRecover(x, fin, top, entries, frames);
    }

    /** The loop that pops frames, until one seems to have a finally block or starts below the handler. */
    method PopFrames(usingstk1: nat, ghost entries: seq<Value>, ghost frames: seq<Frame>) returns (found: bool)
      requires seqjmp == |frames| && usingstk == |entries| && Holding(entries, frames)
      requires Framed(entries, frames) && 0 < usingstk1 <= usingstk
      modifies this`seqjmp
      ensures seqjmp < |frames| && frames[seqjmp].base <= |entries|
      ensures forall g :: seqjmp < g < |frames| ==> frames[g].base >= usingstk1 && !frames[g].fin
      ensures found <==> frames[seqjmp].base >= usingstk1
    {
      SomeFrame(entries, frames);
      assert forall f :: 0 <= f < |frames| ==> frames[f].base <= Kept(frames[f]) <= |entries|;
      hide Framed;
      seqjmp := seqjmp - 1;
      while seqbuf[seqjmp].base >= usingstk1
        invariant seqjmp < |frames| && frames[seqjmp].base <= usingstk
        invariant forall g :: seqjmp < g < |frames| ==> frames[g].base >= usingstk1 && !frames[g].fin
        decreases seqjmp
      {
        if usingbuf[seqbuf[seqjmp].base].End? {
          break;
        }
        NotEndNotFinally(entries, frames, seqjmp);
        seqjmp := seqjmp - 1;
      }
      found := seqbuf[seqjmp].base >= usingstk1;
    }

    /** A begin sequence statement: its recovers (one that takes everything if there is neither recover nor finally)
        are pushed, and its frame. */
    method BeginSequence(fin: bool, recovers: seq<Value>)
      requires Valid() && seqjmp < seqbuf.Length && stack < stackbuf.Length && Value.End !in recovers
      requires usingstk + |recovers| + 1 < usingbuf.Length
      modifies this`usingstk, this`seqjmp, usingbuf, seqbuf
      ensures Valid() && Frames() == old(Frames()) + [Frame(stack, trace, old(usingstk), fin)]
      ensures Entries() == old(Entries()) + Offered(fin, recovers)
    {
      ghost var entries, frames := Entries(), Frames();
      seqbuf[seqjmp] := Frame(stack, trace, usingstk, fin);
      seqjmp := seqjmp + 1;
      var recov := Offered(fin, recovers);
      var i := 0;
      while i < |recov|
        modifies usingbuf
        invariant i <= |recov| && usingbuf[..usingstk] == entries
        invariant forall j :: 0 <= j < i ==> usingbuf[usingstk + j] == recov[j]
      {
        usingbuf[usingstk + i] := recov[i];
        i := i + 1;
      }
      usingstk := usingstk + |recov|;
      assert Entries() == entries + recov;
      assert Frames() == frames + [Frame(stack, trace, |entries|, fin)];
      FramedMore(entries, frames, Frame(stack, trace, |entries|, fin), recovers);
    }

    /** The end of the statement, after its body or after one of its recovers. */
    method EndSequence()
      requires Valid() && seqjmp > 0
      modifies this`usingstk, this`seqjmp
      ensures Valid() && Frames() == old(Frames())[..old(seqjmp) - 1]
      ensures Entries() == old(Entries())[..old(Frames())[old(seqjmp) - 1].base]
    {
      ghost var entries, frames := Entries(), Frames();
      FramedPrefix(entries, frames, seqjmp - 1);
      hide Framed;
      seqjmp := seqjmp - 1;
      usingstk := seqbuf[seqjmp].base;
      assert Frames() == frames[..seqjmp] && Entries() == entries[..usingstk];
    }

    /** The part of a finally block that could matter to the stacks: it leaves them as it found them, but may have
        written anything above the top of the using stack. */
    method RunFinally(scrap: seq<Value>)
      requires Valid()
      modifies usingbuf
      ensures Valid() && Entries() == old(Entries())
    {
      var i := 0;
      while i < |scrap| && usingstk + i < usingbuf.Length
        invariant i <= |scrap| && usingbuf[..usingstk] == old(usingbuf[..usingstk])
      {
        usingbuf[usingstk + i] := scrap[i];
        i := i + 1;
      }
    }

    /** What the finally block of frame g ends with: _clp_break0 with the exception on top of the stack. */
    method Rethrow(g: nat, ghost entries: seq<Value>, ghost frames: seq<Frame>, ghost x: Value, ghost k: nat)
      returns (jump: Jump)
      requires Valid() && Framed(entries, frames) && AtFinally(entries, frames, g, x) && !x.End?
      requires Picks(classes, entries, x, k) && 0 < k <= frames[g].base
      modifies this`usingstk, this`seqjmp, this`stack, this`trace, stackbuf
      ensures Valid() && !jump.Uncaught? && jump.frame < g && frames[jump.frame].stack < stackbuf.Length
      ensures forall h :: jump.frame < h < g ==> !frames[h].fin
      ensures jump.Finally? ==> AtFinally(entries, frames, jump.frame, x) && k <= frames[jump.frame].base
      ensures jump.Recover? ==> AtRecover(entries, frames, k, jump) && InRecover(entries, frames, jump.frame, x)
      ensures forall i :: 0 <= i < frames[jump.frame].stack ==> stackbuf[i] == old(stackbuf[i])
    {
      ghost var e, fs := entries[..frames[g].base], frames[..g];
      assert Entries() == e && Frames() == fs && seqjmp == |fs| == g && |e| == frames[g].base;
      assert stack > 0 && stackbuf[stack - 1] == x;
      assert forall f :: 0 <= f < g ==> fs[f] == frames[f];
      hide Framed, AtFinally, InRecover, AtRecover, Picks, Valid;
      ghost var y, k1;
      jump, y, k1 := Break(1);
      StillPicked(classes, entries, x, k, frames[g].base, k1);
      assert k1 == k && y == x && fs[jump.frame] == frames[jump.frame];
      if jump.Recover? {
        SameRecover(entries, frames, k, g, jump);
        RecoverWithin(entries, frames, g, jump.frame, x);
      } else {
        FinallyWithin(entries, frames, |e|, g, jump.frame, x);
      }
    }

    /** The finally block of frame g is run, if it has one. */
    method FinallyBlock(scrap: seq<Value>, g: nat, ran0: seq<nat>, ghost entries: seq<Value>, ghost frames: seq<Frame>,
                        ghost x: Value)
      returns (ran: seq<nat>)
      requires Valid() && AtFinally(entries, frames, g, x)
      modifies usingbuf
      ensures Valid() && AtFinally(entries, frames, g, x) && ran == ran0 + if frames[g].fin then [g] else []
      ensures stackbuf[..] == old(stackbuf[..])
    {
      ran := ran0;
      if seqbuf[g].fin {
        hide Sound;
        RunFinally(scrap);
        ran := ran + [g];
      }
    }

    lemma FinallyWithin(entries: seq<Value>, frames: seq<Frame>, n: nat, m: nat, f: nat, x: Value)
      requires n <= |entries| && m <= |frames| && AtFinally(entries[..n], frames[..m], f, x)
      ensures AtFinally(entries, frames, f, x)
    {
      assert frames[..m][..f] == frames[..f];
    }

    lemma RecoverWithin(entries: seq<Value>, frames: seq<Frame>, g: nat, f: nat, x: Value)
      requires g < |frames| && frames[g].base <= |entries|
      requires InRecover(entries[..frames[g].base], frames[..g], f, x)
      ensures InRecover(entries, frames, f, x)
    {
      assert frames[..g][..f + 1] == frames[..f + 1];
    }

    /** A whole throw: _clp_break0, and after each finally block it enters, _clp_break0 again. ran lists the frames
        whose finally blocks were run. Control ends up in the recover that the first search found. */
    method Throw(argno: nat, scraps: nat -> seq<Value>) returns (jump: Jump, ran: seq<nat>, ghost x: Value, ghost k: nat)
      requires Valid() && argno <= stack && (argno > 0 ==> !stackbuf[stack - argno].End?)
      modifies this`usingstk, this`seqjmp, this`stack, this`trace, stackbuf, usingbuf
      ensures Valid() && x == (if argno > 0 then old(stackbuf[stack - argno]) else Nil)
      ensures Picks(classes, old(Entries()), x, k) && !jump.Finally? && (jump.Uncaught? <==> k == 0)
      ensures jump.Uncaught? ==>
        stackbuf[..] == old(stackbuf[..]) && stack == old(stack) && Entries() == old(Entries()) && seqjmp == old(seqjmp)
        && trace == old(trace) && ran == []
      ensures jump.Recover? ==>
        && AtRecover(old(Entries()), old(Frames()), k, jump)
        && InRecover(old(Entries()), old(Frames()), jump.frame, x) && old(Frames())[jump.frame].stack < stackbuf.Length
        && ran == FinallyBlocks(old(Frames()), jump.frame + 1, old(seqjmp))
        && forall i :: 0 <= i < old(Frames())[jump.frame].stack ==> stackbuf[i] == old(stackbuf[i])
    {
      ghost var entries, frames := Entries(), Frames();
      assert Framed(entries, frames);
      ran := [];
      jump, x, k := Break(argno);
      if !jump.Uncaught? {
        NoBlocks(frames, jump.frame + 1, |frames|);
        hide Framed, AtFinally, InRecover, AtRecover, Picks, Valid, FinallyBlocks;
        jump, ran := Finish(jump, scraps, entries, frames, x, k);
      }
    }

    /** The finally blocks on the way, one after the other. */
    method Finish(jump0: Jump, scraps: nat -> seq<Value>, ghost entries: seq<Value>, ghost frames: seq<Frame>,
                  ghost x: Value, ghost k: nat)
      returns (jump: Jump, ran: seq<nat>)
      requires Valid() && Framed(entries, frames) && Picks(classes, entries, x, k) && k > 0 && !x.End?
      requires !jump0.Uncaught? && jump0.frame < |frames| && FinallyBlocks(frames, jump0.frame + 1, |frames|) == []
      requires frames[jump0.frame].stack < stackbuf.Length
      requires jump0.Finally? ==> AtFinally(entries, frames, jump0.frame, x) && k <= frames[jump0.frame].base
      requires jump0.Recover? ==> AtRecover(entries, frames, k, jump0) && InRecover(entries, frames, jump0.frame, x)
      modifies this`usingstk, this`seqjmp, this`stack, this`trace, stackbuf, usingbuf
      ensures Valid() && jump.Recover? && jump.frame <= jump0.frame
      ensures AtRecover(entries, frames, k, jump) && InRecover(entries, frames, jump.frame, x)
      ensures ran == FinallyBlocks(frames, jump.frame + 1, |frames|) && frames[jump.frame].stack <= frames[jump0.frame].stack
      ensures forall i :: 0 <= i < frames[jump.frame].stack ==> stackbuf[i] == old(stackbuf[i])
    {
      StacksGrow(entries, frames);
      hide Framed, AtFinally, InRecover, AtRecover, Picks, Valid, FinallyBlocks;
      jump, ran := jump0, [];
      while jump.Finally?
        invariant Valid() && !jump.Uncaught? && jump.frame <= jump0.frame
        invariant frames[jump.frame].stack <= frames[jump0.frame].stack
        invariant jump.Finally? ==> AtFinally(entries, frames, jump.frame, x) && k <= frames[jump.frame].base
        invariant jump.Recover? ==> AtRecover(entries, frames, k, jump) && InRecover(entries, frames, jump.frame, x)
        invariant ran == FinallyBlocks(frames, jump.frame + 1, |frames|)
        invariant forall i :: 0 <= i < frames[jump.frame].stack ==> stackbuf[i] == old(stackbuf[i])
        decreases if jump.Finally? then jump.frame + 1 else 0
      {
        jump, ran := Onward(scraps(jump.frame), jump.frame, ran, entries, frames, x, k);
      }
    }

    /** A break in the body of a begin sequence statement. Without recover and finally the statement takes every
        exception; otherwise it takes x exactly if one of its recovers does, and the last such recover gets control. */
    method BreakInSequence(fin: bool, recovers: seq<Value>, x: Value, scraps: nat -> seq<Value>)
      returns (jump: Jump, ran: seq<nat>)
      requires Valid() && seqjmp < seqbuf.Length && stack < stackbuf.Length && Value.End !in recovers && !x.End?
      requires usingstk + |recovers| + 1 < usingbuf.Length
      modifies this`usingstk, this`seqjmp, this`stack, this`trace, stackbuf, usingbuf, seqbuf
      ensures Valid() && !jump.Finally?
      ensures fin || recovers != [] ==>
        (jump.Recover? && jump.frame == old(seqjmp) <==> exists i :: 0 <= i < |recovers| && Catches(classes, recovers[i], x))
      ensures !fin && recovers == [] ==> jump == Recover(old(seqjmp), 1)
      ensures jump.Recover? ==> jump.frame <= old(seqjmp)
      ensures jump.Recover? && jump.frame == old(seqjmp) && recovers != [] ==>
        && 1 <= jump.level <= |recovers| && Catches(classes, recovers[jump.level - 1], x)
        && forall i :: jump.level <= i < |recovers| ==> !Catches(classes, recovers[i], x)
      ensures jump.Recover? && jump.frame == old(seqjmp) ==> ran == []
      ensures jump.Recover? && jump.frame == old(seqjmp) ==>
        stack == old(stack) + 1 <= stackbuf.Length && stackbuf[old(stack)] == x
        && forall i :: 0 <= i < old(stack) ==> stackbuf[i] == old(stackbuf[i])
    {
      hide *;
      PointersInRange();
      ghost var below, frames, f := Entries(), Frames(), Frame(stack, trace, usingstk, fin);
      BeginSequence(fin, recovers);
      PointersInRange();
      ghost var entries, all := Entries(), Frames();
      PushValue(x);
      assert forall i :: 0 <= i < f.stack ==> stackbuf[i] == old(stackbuf[i]);
      ghost var y, k;
      jump, ran, y, k := Throw(1, scraps);
      assert y == x && all[|frames|] == f && |all| == |frames| + 1;
      TakenBySequence(classes, below, frames, f, recovers, x, k, jump);
      if jump.Recover? && jump.frame == |frames| {
        assert all[jump.frame] == f;
        LandedThere(entries, all, jump.frame, x);
        NoBlocks(all, |all|, |all|);
      }
    }

    lemma PointersInRange()
      requires Valid()
      ensures usingstk < usingbuf.Length && seqjmp <= seqbuf.Length && stack <= stackbuf.Length && usingbuf != stackbuf
      ensures |Entries()| == usingstk && |Frames()| == seqjmp
      ensures forall i :: 0 <= i < seqjmp ==> Frames()[i] == seqbuf[i]
    {
    }

    lemma LandedThere(entries: seq<Value>, frames: seq<Frame>, f: nat, x: Value)
      requires InRecover(entries, frames, f, x)
      ensures f < |frames| && stack == frames[f].stack + 1 <= stackbuf.Length && stackbuf[frames[f].stack] == x
    {
    }

    /** PUSH. */
    method PushValue(x: Value)
      requires Valid() && stack < stackbuf.Length
      modifies this`stack, stackbuf
      ensures Valid() && stack == old(stack) + 1 <= stackbuf.Length && stackbuf[old(stack)] == x
      ensures usingstk <= usingbuf.Length && seqjmp <= seqbuf.Length
      ensures Entries() == old(Entries()) && Frames() == old(Frames())
      ensures forall i :: 0 <= i < stackbuf.Length && i != old(stack) ==> stackbuf[i] == old(stackbuf[i])
    {
      stackbuf[stack] := x;
      stack := stack + 1;
    }

    /** begseqpop_ret: the top frame is left, the return value is put where its stack began. */
    method PopReturning()
      requires Valid() && seqjmp > 0 && stack > 0
      modifies this`usingstk, this`seqjmp, this`stack, this`trace, stackbuf
      ensures Valid() && AtFinally(old(Entries()), old(Frames()), old(seqjmp) - 1, old(stackbuf[stack - 1]))
      ensures forall i :: 0 <= i < old(Frames())[old(seqjmp) - 1].stack ==> stackbuf[i] == old(stackbuf[i])
    {
      ghost var entries, frames, top := Entries(), Frames(), stack;
      assert Sound(entries, frames, top, stackbuf.Length) && Holding(entries, frames) && Apart();
      hide Sound, AtFinally, Valid, Holding;
      seqjmp := seqjmp - 1;
      ToFinally(stackbuf[stack - 1], top, entries, frames);
    }

    /** begseqpop_loop and begseqpop_exit: the same without a value. */
    method PopLooping()
      requires Valid() && seqjmp > 0
      modifies this`usingstk, this`seqjmp, this`stack, this`trace
      ensures Valid() && seqjmp == old(seqjmp) - 1 && Frames() == old(Frames())[..seqjmp]
      ensures stack == seqbuf[seqjmp].stack && trace == seqbuf[seqjmp].trace
      ensures usingstk == seqbuf[seqjmp].base <= old(usingstk) && Entries() == old(Entries())[..usingstk]
    {
      ghost var entries, frames := Entries(), Frames();
      SoundPopped(entries, frames, stack, stackbuf.Length, seqjmp - 1);
      LowerStack(entries[..frames[seqjmp - 1].base], frames, seqjmp - 1, stackbuf.Length);
      hide Sound;
      seqjmp := seqjmp - 1;
      stack := seqbuf[seqjmp].stack;
      trace := seqbuf[seqjmp].trace;
      usingstk := seqbuf[seqjmp].base;
      assert usingbuf[..usingstk] == entries[..usingstk];
      assert seqbuf[..seqjmp] == frames[..seqjmp];
    }

    /** Some of the frames have been left, with their entries. */
    ghost predicate Between(entries: seq<Value>, frames: seq<Frame>)
      reads this, seqbuf, usingbuf
    {
      && seqjmp <= |frames| && seqjmp <= seqbuf.Length && Frames() == frames[..seqjmp]
      && usingstk <= |entries| && usingstk <= usingbuf.Length && Entries() == entries[..usingstk]
    }

    lemma LeavingStarts()
      requires Valid()
      ensures Framed(Entries(), Frames()) && Between(Entries(), Frames()) && seqjmp == |Frames()| && stack <= stackbuf.Length
      ensures FinallyBlocks(Frames(), |Frames()|, |Frames()|) == []
      ensures forall f, g :: 0 <= f < g < |Frames()| ==> Frames()[f].stack <= Frames()[g].stack
    {
    }

    /** A return from inside depth begin sequences of one function: one begseqpop_ret after the other, and after
        each the finally block of the sequence just left. */
    method Return(depth: nat, scraps: nat -> seq<Value>) returns (ran: seq<nat>)
      requires Valid() && 0 < depth <= seqjmp && stack > 0
      modifies this`usingstk, this`seqjmp, this`stack, this`trace, stackbuf, usingbuf
      ensures Valid() && AtFinally(old(Entries()), old(Frames()), old(seqjmp) - depth, old(stackbuf[stack - 1]))
      ensures ran == FinallyBlocks(old(Frames()), old(seqjmp) - depth, old(seqjmp))
      ensures old(Frames())[old(seqjmp) - depth].stack < stackbuf.Length
      ensures forall i :: 0 <= i < old(Frames())[old(seqjmp) - depth].stack ==> stackbuf[i] == old(stackbuf[i])
    {
      hide *;
      LeavingStarts();
      ghost var entries, frames, x := Entries(), Frames(), stackbuf[stack - 1];
      ran := ReturnOne(scraps(seqjmp - 1), [], entries, frames, x);
      var left := depth - 1;
      while left > 0
        invariant left < depth && Valid() && seqjmp == |frames| - depth + left && AtFinally(entries, frames, seqjmp, x)
        invariant Between(entries, frames) && 0 < stack <= stackbuf.Length && stackbuf[stack - 1] == x
        invariant ran == FinallyBlocks(frames, seqjmp, |frames|) && frames[seqjmp].stack < stackbuf.Length
        invariant forall i :: 0 <= i < frames[seqjmp].stack ==> stackbuf[i] == old(stackbuf[i])
        decreases left
      {
        ran := ReturnOne(scraps(seqjmp - 1), ran, entries, frames, x);
        left := left - 1;
      }
    }

    method ReturnOne(scrap: seq<Value>, ran0: seq<nat>, ghost entries: seq<Value>, ghost frames: seq<Frame>, ghost x: Value)
      returns (ran: seq<nat>)
      requires Valid() && seqjmp > 0 && Between(entries, frames)
      requires 0 < stack <= stackbuf.Length && stackbuf[stack - 1] == x && ran0 == FinallyBlocks(frames, seqjmp, |frames|)
      modifies this`usingstk, this`seqjmp, this`stack, this`trace, stackbuf, usingbuf
      ensures Valid() && seqjmp == old(seqjmp) - 1 < |frames| && AtFinally(entries, frames, seqjmp, x)
      ensures Between(entries, frames) && 0 < stack <= stackbuf.Length && stackbuf[stack - 1] == x
      ensures ran == FinallyBlocks(frames, seqjmp, |frames|) && frames[seqjmp].stack < stackbuf.Length
      ensures forall i :: 0 <= i < frames[seqjmp].stack ==> stackbuf[i] == old(stackbuf[i])
    {
      var m := seqjmp;
      ghost var n := usingstk;
      assert frames[..m][m - 1] == frames[m - 1];
      hide FinallyBlocks, Sound;
      PopReturning();
      FinallyWithin(entries, frames, n, m, m - 1, x);
      ran := FinallyBlock(scrap, m - 1, ran0, entries, frames, x);
      BlocksFurther(frames, m - 1, m, |frames|);
      OneBlock(frames, m);
    }

    /** Frame g has been left without a value, with everything above it. */
    ghost predicate Out(entries: seq<Value>, frames: seq<Frame>, g: nat)
      reads this, seqbuf, usingbuf
    {
      && g < |frames| && seqjmp == g && frames[g].base <= |entries| && seqbuf.Length > g && usingstk <= usingbuf.Length
      && Frames() == frames[..g] && seqbuf[g] == frames[g] && usingstk == frames[g].base
      && Entries() == entries[..frames[g].base] && stack == frames[g].stack && trace == frames[g].trace
    }

    /** A loop or exit from inside depth begin sequences of one loop body: one begseqpop_loop or begseqpop_exit after
        the other, and after each the finally block of the sequence just left. Nothing is written to the value stack. */
    method LeaveLoop(depth: nat, scraps: nat -> seq<Value>) returns (ran: seq<nat>)
      requires Valid() && 0 < depth <= seqjmp
      modifies this`usingstk, this`seqjmp, this`stack, this`trace, usingbuf
      ensures Valid() && Out(old(Entries()), old(Frames()), old(seqjmp) - depth)
      ensures ran == FinallyBlocks(old(Frames()), old(seqjmp) - depth, old(seqjmp))
    {
      ghost var entries, frames := Entries(), Frames();
      LeavingStarts();
      hide Framed, FinallyBlocks, Valid, Sound;
      ran := LeaveOne(scraps(seqjmp - 1), [], entries, frames);
      var left := depth - 1;
      while left > 0
        invariant left < depth && Valid() && seqjmp == |frames| - depth + left && Out(entries, frames, seqjmp)
        invariant ran == FinallyBlocks(frames, seqjmp, |frames|)
        decreases left
      {
        ran := LeaveOne(scraps(seqjmp - 1), ran, entries, frames);
        left := left - 1;
      }
    }

    method LeaveOne(scrap: seq<Value>, ran0: seq<nat>, ghost entries: seq<Value>, ghost frames: seq<Frame>)
      returns (ran: seq<nat>)
      requires Valid() && seqjmp > 0 && Between(entries, frames) && ran0 == FinallyBlocks(frames, seqjmp, |frames|)
      modifies this`usingstk, this`seqjmp, this`stack, this`trace, usingbuf
      ensures Valid() && seqjmp == old(seqjmp) - 1 && Out(entries, frames, seqjmp)
      ensures ran == FinallyBlocks(frames, seqjmp, |frames|)
    {
      hide FinallyBlocks, Sound, Framed, Valid;
      var m := seqjmp;
      assert frames[..m][m - 1] == frames[m - 1];
      PopLooping();
      assert frames[..m][..m - 1] == frames[..m - 1] && Entries() == entries[..usingstk];
      ran := ran0;
      if seqbuf[m - 1].fin {
        RunFinally(scrap);
        ran := ran + [m - 1];
      }
      BlocksFurther(frames, m - 1, m, |frames|);
      OneBlock(frames, m);
    }

    /** One finally block on the way, and the rethrow. */
    method Onward(scrap: seq<Value>, g: nat, ran0: seq<nat>, ghost entries: seq<Value>, ghost frames: seq<Frame>,
                  ghost x: Value, ghost k: nat)
      returns (jump: Jump, ran: seq<nat>)
      requires Valid() && Framed(entries, frames) && AtFinally(entries, frames, g, x) && !x.End?
      requires Picks(classes, entries, x, k) && 0 < k <= frames[g].base && ran0 == FinallyBlocks(frames, g + 1, |frames|)
      modifies this`usingstk, this`seqjmp, this`stack, this`trace, stackbuf, usingbuf
      ensures Valid() && !jump.Uncaught? && jump.frame < g && frames[jump.frame].stack < stackbuf.Length
      ensures ran == FinallyBlocks(frames, jump.frame + 1, |frames|)
      ensures jump.Finally? ==> AtFinally(entries, frames, jump.frame, x) && k <= frames[jump.frame].base
      ensures jump.Recover? ==> AtRecover(entries, frames, k, jump) && InRecover(entries, frames, jump.frame, x)
      ensures forall i :: 0 <= i < frames[jump.frame].stack ==> stackbuf[i] == old(stackbuf[i])
    {
      hide Framed, InRecover, AtRecover, Picks, Valid, FinallyBlocks;
      assert g < |frames|;
      ran := FinallyBlock(scrap, g, ran0, entries, frames, x);
      jump := Rethrow(g, entries, frames, x, k);
      OneMoreFrame(frames, jump.frame, g, ran0, ran);
    }
  }

  /** From frame g to frame f the finally block of g is run, and no other. */
  lemma OneMoreFrame(frames: seq<Frame>, f: nat, g: nat, ran0: seq<nat>, ran: seq<nat>)
    requires f < g < |frames| && ran0 == FinallyBlocks(frames, g + 1, |frames|)
    requires ran == ran0 + (if frames[g].fin then [g] else []) && forall h :: f < h < g ==> !frames[h].fin
    ensures ran == FinallyBlocks(frames, f + 1, |frames|)
  {
    hide FinallyBlocks;
    BlocksFurther(frames, f + 1, g + 1, |frames|);
    BlocksFurther(frames, f + 1, g, g + 1);
    NoBlocks(frames, f + 1, g);
    OneBlock(frames, g + 1);
  }

  /** Cutting off entries above the picked one does not change the choice. */
  lemma StillPicked(classes: Classes, entries: seq<Value>, x: Value, k: nat, n: nat, k1: nat)
    requires Picks(classes, entries, x, k) && k <= n <= |entries| && Picks(classes, entries[..n], x, k1)
    ensures k1 == k
  {
    assert k > 0 ==> entries[..n][k - 1] == entries[k - 1];
    assert k1 > 0 ==> entries[..n][k1 - 1] == entries[k1 - 1];
  }

  lemma SameRecover(entries: seq<Value>, frames: seq<Frame>, k: nat, g: nat, jump: Jump)
    requires Framed(entries, frames) && g < |frames| && 0 < k <= frames[g].base
    requires frames[g].base <= |entries| && AtRecover(entries[..frames[g].base], frames[..g], k, jump)
    ensures AtRecover(entries, frames, k, jump)
  {
    OwnerBelow(frames, k, g);
  }

  lemma {:induction false} OwnerBelow(frames: seq<Frame>, k: nat, g: nat)
    requires 0 < g <= |frames| && frames[0].base < k && forall f :: g <= f < |frames| ==> frames[f].base >= k
    ensures Owner(frames, k) == Owner(frames[..g], k)
    decreases |frames|
  {
    if g < |frames| {
      OwnerBelow(frames[..|frames| - 1], k, g);
      assert frames[..|frames| - 1][..g] == frames[..g];
    } else {
      assert frames[..g] == frames;
    }
  }

  /** The entries a begin sequence statement pushes. */
  function Offered(fin: bool, recovers: seq<Value>): (r: seq<Value>)
    ensures 0 < |r| <= |recovers| + 1
  {
    (if fin then [End] else []) + if !fin && recovers == [] then [Nil] else recovers
  }

  lemma FramedMore(entries: seq<Value>, frames: seq<Frame>, f: Frame, recovers: seq<Value>)
    requires Framed(entries, frames) && f.base == |entries| && Value.End !in recovers
    requires forall g :: 0 <= g < |frames| ==> frames[g].stack <= f.stack
    ensures Framed(entries + Offered(f.fin, recovers), frames + [f])
  {
    var es, fs := entries + Offered(f.fin, recovers), frames + [f];
    assert forall k :: |entries| <= k < |es| ==> (es[k].End? <==> f.fin && k == |entries|);
    forall k | 0 <= k < |es| && es[k].End? ensures HasEnd(fs, k) {
      if k < |entries| {
        assert HasEnd(frames, k);
        var g :| 0 <= g < |frames| && frames[g].base == k && frames[g].fin;
        assert fs[g] == frames[g];
      } else {
        assert fs[|frames|] == f;
      }
    }
  }

  /** The jump goes to the recover of entry k - 1, which is the level-th of its frame. */
  ghost predicate AtRecover(entries: seq<Value>, frames: seq<Frame>, k: nat, jump: Jump) {
    && 0 < k <= |entries| && |frames| > 0 && frames[0].base == 0 && jump.Recover?
    && jump.frame == Owner(frames, k)
    && jump.level >= 1
    && k == Kept(frames[jump.frame]) + jump.level
  }

  lemma SomeFrame(entries: seq<Value>, frames: seq<Frame>)
    requires Framed(entries, frames) && |entries| > 0
    ensures |frames| > 0 && frames[0].base == 0
  {
  }

  lemma NotEndNotFinally(entries: seq<Value>, frames: seq<Frame>, f: nat)
    requires Framed(entries, frames) && f < |frames|
    requires frames[f].base < |entries| ==> !entries[frames[f].base].End?
    ensures !frames[f].fin
  {
  }

  lemma Recovering(entries: seq<Value>, frames: seq<Frame>, f: nat, k: nat, x: Value, classes: Classes)
    requires Framed(entries, frames) && f < |frames| && Picks(classes, entries, x, k) && !x.End?
    requires frames[f].base < k && forall g :: f < g < |frames| ==> frames[g].base >= k
    ensures entries[frames[f].base].End? <==> frames[f].fin
    ensures k > Kept(frames[f]) && AtRecover(entries, frames, k, Recover(f, k - Kept(frames[f])))
  {
    var base := frames[f].base;
    if entries[base].End? {
      assert HasEnd(frames, base);
    }
  }

  /** Which entry is picked just behind the entries o that a statement pushes, of which the first e take nothing. */
  lemma PickedHere(classes: Classes, below: seq<Value>, o: seq<Value>, e: nat, recovers: seq<Value>, x: Value, k: nat)
    requires |o| == e + |recovers| && (forall i :: 0 <= i < |recovers| ==> o[e + i] == recovers[i])
    requires (forall i :: 0 <= i < e ==> !Catches(classes, o[i], x)) && Picks(classes, below + o, x, k)
    ensures k > |below| <==> exists i :: 0 <= i < |recovers| && Catches(classes, recovers[i], x)
    ensures k > |below| ==>
      var level := k - |below| - e;
      && 1 <= level <= |recovers| && Catches(classes, recovers[level - 1], x)
      && forall i :: level <= i < |recovers| ==> !Catches(classes, recovers[i], x)
  {
    hide Catches;
    var es := below + o;
    assert forall i :: 0 <= i < |o| ==> es[|below| + i] == o[i];
    forall i | 0 <= i < |recovers| ensures es[|below| + (e + i)] == recovers[i] {}
    if k > |below| {
      var i := k - 1 - |below|;
      assert es[k - 1] == o[i];
      assert i >= e && o[e + (i - e)] == recovers[i - e];
    }
  }

  lemma OfferedIs(fin: bool, recovers: seq<Value>)
    ensures var e, o := if fin then 1 else 0, Offered(fin, recovers);
            && (fin || recovers != [] ==> |o| == e + |recovers| && forall i :: 0 <= i < |recovers| ==> o[e + i] == recovers[i])
            && (fin ==> o[0] == End) && (!fin && recovers == [] ==> o == [Nil])
  {
  }

  lemma AtRecoverMeans(entries: seq<Value>, frames: seq<Frame>, k: nat, jump: Jump)
    requires AtRecover(entries, frames, k, jump)
    ensures 0 < k <= |entries| && |frames| > 0 && jump.Recover? && jump.frame < |frames|
    ensures k == Kept(frames[jump.frame]) + jump.level
    ensures jump.frame == |frames| - 1 <==> frames[|frames| - 1].base < k
  {
  }

  /** Which statement takes x, and at which of its recovers. */
  lemma TakenBySequence(classes: Classes, below: seq<Value>, frames: seq<Frame>, f: Frame, recovers: seq<Value>, x: Value,
                        k: nat, jump: Jump)
    requires f.base == |below| && !x.End?
    requires Picks(classes, below + Offered(f.fin, recovers), x, k) && !jump.Finally? && (jump.Uncaught? <==> k == 0)
    requires jump.Recover? ==> AtRecover(below + Offered(f.fin, recovers), frames + [f], k, jump)
    ensures f.fin || recovers != [] ==>
      (jump.Recover? && jump.frame == |frames| <==> exists i :: 0 <= i < |recovers| && Catches(classes, recovers[i], x))
    ensures !f.fin && recovers == [] ==> jump == Recover(|frames|, 1)
    ensures jump.Recover? ==> jump.frame <= |frames|
    ensures jump.Recover? && jump.frame == |frames| && recovers != [] ==>
      && 1 <= jump.level <= |recovers| && Catches(classes, recovers[jump.level - 1], x)
      && forall i :: jump.level <= i < |recovers| ==> !Catches(classes, recovers[i], x)
  {
    hide Picks, Offered, AtRecover, Catches;
    OfferedIs(f.fin, recovers);
    CatchesWhat(classes, Nil, x);
    CatchesWhat(classes, End, x);
    var o, fs := Offered(f.fin, recovers), frames + [f];
    if jump.Recover? { AtRecoverMeans(below + o, fs, k, jump); }
    assert fs[|frames|] == f;
    if f.fin || recovers != [] {
      PickedHere(classes, below, o, if f.fin then 1 else 0, recovers, x, k);
    } else {
      PickedHere(classes, below, o, 0, [Nil], x, k);
      assert [Nil][0] == Nil;
    }
  }
}
