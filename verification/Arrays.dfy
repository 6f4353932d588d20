/** The array operations of ccclib/src/array.cpp and push.cpp on cell buffers: who owns a buffer, where its
    End is, and what a concurrent scan sees. */
module Arrays {
  import opened Basics
  import opened Objects

  const EXTSIZ: nat := 4

  // ----- memory and ownership -----

  /** mem: the cell buffers now allocated, by address (0 is NULL). ptr and length: the fields of the orefs.
      Addresses are handed out in order, so brk is the next one; released is the history of frees. */
  datatype Store = Store(mem: map<nat, seq<Value>>, ptr: seq<nat>, length: seq<int>, brk: nat, released: seq<nat>)

  /** The first End of a buffer sits right behind the elements and records the allocated cells minus one. */
  ghost predicate Terminated(cells: seq<Value>, length: int) {
    && 0 < length < |cells|
    && cells[length] == End(|cells| - 1)
    && forall i :: 0 <= i < length ==> !cells[i].End?
  }

  ghost predicate Owns(st: Store, o: nat, a: nat) {
    o < |st.ptr| && st.ptr[o] == a && a != 0
  }

  /** Every buffer has exactly one owner, length is non-zero exactly for owners, and every address ever handed
      out is either still allocated or was released exactly once. */
  ghost predicate Owned(st: Store) {
    && |st.ptr| == |st.length|
    && (forall o: nat :: o < |st.ptr| ==> (st.ptr[o] != 0 <==> st.length[o] != 0))
    && (forall o: nat, a: nat :: Owns(st, o, a) ==> a in st.mem && Terminated(st.mem[a], st.length[o]))
    && (forall o: nat, u: nat, a: nat :: Owns(st, o, a) && Owns(st, u, a) ==> o == u)
    && (forall a: nat :: a in st.mem ==> exists o: nat :: Owns(st, o, a))
    && (forall a: nat :: 0 < a < st.brk <==> a in st.mem || a in st.released)
    && (forall a: nat :: a in st.mem ==> a !in st.released)
    && (forall i, j :: 0 <= i < j < |st.released| ==> st.released[i] != st.released[j])
  }

  /** The elements of oref o. */
  ghost function Elements(st: Store, o: nat): seq<Value>
    requires Owned(st) && o < |st.ptr|
  {
    if st.ptr[o] == 0 then []
    else assert Owns(st, o, st.ptr[o]); st.mem[st.ptr[o]][..st.length[o]]
  }

  /** Oref o drops its buffer, if it has one. */
  ghost function Drop(st: Store, o: nat): Store
    requires o < |st.ptr| == |st.length|
  {
    if st.ptr[o] == 0 then st
    else st.(mem := st.mem - {st.ptr[o]}, released := st.released + [st.ptr[o]], ptr := st.ptr[o := 0], length := st.length[o := 0])
  }

  /** Oref o, which has no buffer, gets a new one. */
  ghost function Attach(st: Store, o: nat, cells: seq<Value>, length: nat): Store
    requires o < |st.ptr| == |st.length|
  {
    st.(mem := st.mem[st.brk := cells], ptr := st.ptr[o := st.brk], length := st.length[o := length], brk := st.brk + 1)
  }

  /** The cells of oref o are overwritten in place. */
  ghost function Rewrite(st: Store, o: nat, cells: seq<Value>, length: nat): Store
    requires o < |st.ptr| == |st.length|
  {
    st.(mem := st.mem[st.ptr[o] := cells], length := st.length[o := length])
  }

  lemma DropOwned(st: Store, o: nat)
    requires Owned(st) && o < |st.ptr|
    ensures Owned(Drop(st, o)) && Elements(Drop(st, o), o) == []
    ensures forall u: nat :: u < |st.ptr| && u != o ==> Elements(Drop(st, o), u) == Elements(st, u)
  {
    var st' := Drop(st, o);
    if st.ptr[o] != 0 {
      var a := st.ptr[o];
      assert Owns(st, o, a);
      forall u: nat, b: nat ensures Owns(st', u, b) <==> Owns(st, u, b) && u != o {}
      forall b: nat | b in st'.mem ensures exists u: nat :: Owns(st', u, b) {
        var u: nat :| Owns(st, u, b);
        assert Owns(st', u, b);
      }
      assert forall b: nat :: b in st'.released <==> b in st.released || b == a;
    }
  }

  lemma AttachOwned(st: Store, o: nat, cells: seq<Value>, length: nat)
    requires Owned(st) && o < |st.ptr| && st.ptr[o] == 0 && st.brk > 0 && Terminated(cells, length)
    ensures Owned(Attach(st, o, cells, length)) && Elements(Attach(st, o, cells, length), o) == cells[..length]
    ensures forall u: nat :: u < |st.ptr| && u != o ==> Elements(Attach(st, o, cells, length), u) == Elements(st, u)
  {
    var st' := Attach(st, o, cells, length);
    assert st.brk !in st.mem && st.brk !in st.released;
    forall u: nat, b: nat ensures Owns(st', u, b) <==> Owns(st, u, b) || (u == o && b == st.brk) {}
    forall b: nat | b in st'.mem ensures exists u: nat :: Owns(st', u, b) {
      if b == st.brk { assert Owns(st', o, b); } else {
        var u: nat :| Owns(st, u, b);
        assert Owns(st', u, b);
      }
    }
  }

  lemma RewriteStaysOwned(st: Store, o: nat, cells: seq<Value>, length: nat)
    requires Owned(st) && o < |st.ptr| && st.ptr[o] != 0 && Terminated(cells, length)
    ensures Owned(Rewrite(st, o, cells, length))
  {
    var st' := Rewrite(st, o, cells, length);
    assert Owns(st, o, st.ptr[o]);
    assert forall b: nat :: b in st'.mem <==> b in st.mem;
    forall u: nat, b: nat ensures Owns(st', u, b) <==> Owns(st, u, b) {}
    forall b: nat | b in st'.mem ensures exists u: nat :: Owns(st', u, b) {
      var u: nat :| Owns(st, u, b);
      assert Owns(st', u, b);
    }
  }

  lemma RewriteOwned(st: Store, o: nat, cells: seq<Value>, length: nat)
    requires Owned(st) && o < |st.ptr| && st.ptr[o] != 0 && Terminated(cells, length)
    ensures Owned(Rewrite(st, o, cells, length)) && Elements(Rewrite(st, o, cells, length), o) == cells[..length]
    ensures forall u: nat :: u < |st.ptr| && u != o ==> Elements(Rewrite(st, o, cells, length), u) == Elements(st, u)
  {
    RewriteStaysOwned(st, o, cells, length);
    assert Owns(st, o, st.ptr[o]);
    forall u: nat | u < |st.ptr| && u != o
      ensures Elements(Rewrite(st, o, cells, length), u) == Elements(st, u)
    {
      if st.ptr[u] != 0 { assert Owns(st, u, st.ptr[u]); }
    }
  }

  /** Oref o gets a new buffer, and then lets go of the old one. */
  ghost function Replaced(st: Store, o: nat, cells: seq<Value>, length: nat): Store
    requires o < |st.ptr| == |st.length|
  {
    var grown := st.mem[st.brk := cells];
    st.(mem := if st.ptr[o] == 0 then grown else grown - {st.ptr[o]},
        released := if st.ptr[o] == 0 then st.released else st.released + [st.ptr[o]],
        ptr := st.ptr[o := st.brk], length := st.length[o := length], brk := st.brk + 1)
  }

  lemma ReplaceOwned(st: Store, o: nat, cells: seq<Value>, length: nat)
    requires Owned(st) && o < |st.ptr| && st.brk > 0 && Terminated(cells, length)
    ensures Owned(Replaced(st, o, cells, length)) && Elements(Replaced(st, o, cells, length), o) == cells[..length]
    ensures forall u: nat :: u < |st.ptr| && u != o ==> Elements(Replaced(st, o, cells, length), u) == Elements(st, u)
  {
    DropOwned(st, o);
    AttachOwned(Drop(st, o), o, cells, length);
    if st.ptr[o] != 0 { assert Owns(st, o, st.ptr[o]); }
    assert Replaced(st, o, cells, length) == Attach(Drop(st, o), o, cells, length);
  }

  // ----- writes in place -----

  /** One store to a cell. */
  datatype Write = Write(at: nat, v: Value)

  function Play(cells: seq<Value>, ws: seq<Write>): seq<Value>
    decreases |ws|
  {
    if ws == [] then cells
    else Play(if ws[0].at < |cells| then cells[ws[0].at := ws[0].v] else cells, ws[1..])
  }

  /** aadd in place: the End is copied one cell up first, then the value goes over the old End. */
  function AaddWrites(cells: seq<Value>, length: nat, v: Value): seq<Write>
    requires length < |cells|
  {
    [Write(length + 1, cells[length]), Write(length, v)]
  }

  /** NILs from index hi - 1 down to lo. */
  function NilWrites(lo: nat, hi: nat): seq<Write>
    decreases hi
  {
    if hi <= lo then [] else [Write(hi - 1, Nil)] + NilWrites(lo, hi - 1)
  }

  /** asize in place: the type of the new End, its size field (junk until then), then the NILs downwards, so
      that the old End is overwritten last. */
  function AsizeWrites(was: nat, now: nat, size: int, junk: int): seq<Write> {
    [Write(now, End(junk)), Write(now, End(size))] + NilWrites(was, now)
  }

  /** What asize makes of the elements. */
  function Resized(e: seq<Value>, now: nat): (r: seq<Value>)
    ensures |r| == now && forall i :: 0 <= i < now ==> r[i] == if i < |e| then e[i] else Nil
  {
    if now <= |e| then e[..now] else e + seq(now - |e|, _ => Nil)
  }

  /** A concurrent scan stops inside the buffer and has seen e. */
  ghost predicate Sees(cells: seq<Value>, e: seq<Value>) {
    LiveCount(cells) < |cells| && cells[..LiveCount(cells)] == e
  }

  lemma SeesAt(cells: seq<Value>, n: nat)
    requires n < |cells| && cells[n].End? && forall i :: 0 <= i < n ==> !cells[i].End?
    ensures Sees(cells, cells[..n])
  {
    LiveCountIs(cells, n);
  }

  /** After every single write of aadd's in-place path a scan meets an End inside the buffer, and sees the old
      elements until the last write, the new ones after it. */
  lemma AaddAtomic(cells: seq<Value>, length: nat, v: Value, k: nat)
    requires Terminated(cells, length) && length + 1 <= cells[length].size && !v.End? && k <= 2
    ensures var p := Play(cells, AaddWrites(cells, length, v)[..k]);
            Sees(p, if k < 2 then cells[..length] else cells[..length] + [v])
    ensures Play(cells, AaddWrites(cells, length, v)) == cells[length + 1 := cells[length]][length := v]
    ensures Terminated(Play(cells, AaddWrites(cells, length, v)), length + 1)
  {
    var one := cells[length + 1 := cells[length]];
    var two := one[length := v];
    var ws := AaddWrites(cells, length, v);
    assert ws[1..] == [ws[1]] && ws[1..][1..] == [];
    assert Play(cells, ws) == Play(one, ws[1..]) == Play(two, ws[1..][1..]) == two;
    if k == 0 {
      assert ws[..0] == [];
      SeesAt(cells, length);
    } else if k == 1 {
      assert ws[..1] == [ws[0]];
      assert Play(cells, [ws[0]]) == one;
      SeesAt(one, length);
      assert one[..length] == cells[..length];
    } else {
      assert ws[..2] == ws;
      SeesAt(two, length + 1);
      assert two[..length + 1] == cells[..length] + [v];
    }
  }

  lemma {:induction false} NilsPlayed(cells: seq<Value>, lo: nat, hi: nat, k: nat)
    requires lo <= hi <= |cells| && k <= |NilWrites(lo, hi)|
    ensures |NilWrites(lo, hi)| == hi - lo
    ensures var p := Play(cells, NilWrites(lo, hi)[..k]);
            |p| == |cells| && forall i :: 0 <= i < |cells| ==> p[i] == if hi - k <= i < hi then Nil else cells[i]
    decreases hi
  {
    if hi > lo {
      var ws := NilWrites(lo, hi);
      assert ws[1..] == NilWrites(lo, hi - 1);
      if k > 0 {
        NilsPlayed(cells[hi - 1 := Nil], lo, hi - 1, k - 1);
        assert ws[..k][1..] == ws[1..][..k - 1];
      } else {
        NilsPlayed(cells, lo, hi - 1, 0);
        assert ws[..0] == [];
      }
    }
  }

  /** The buffer after the first k writes of asize's in-place path. */
  lemma AsizePlayed(cells: seq<Value>, was: nat, now: nat, size: int, junk: int, k: nat)
    requires was < |cells| && now < |cells| && k <= |AsizeWrites(was, now, size, junk)|
    ensures |AsizeWrites(was, now, size, junk)| == 2 + if was < now then now - was else 0
    ensures var p := Play(cells, AsizeWrites(was, now, size, junk)[..k]);
            && |p| == |cells|
            && (k == 0 ==> p == cells)
            && (k > 0 ==> p[now] == End(if k == 1 then junk else size))
            && forall i :: 0 <= i < |cells| && (k == 0 || i != now) ==> p[i] == if k > 2 && now + 2 - k <= i < now then Nil else cells[i]
  {
    var ws := AsizeWrites(was, now, size, junk);
    var nils := NilWrites(was, now);
    if was < now { NilsPlayed(cells, was, now, 0); } else { assert nils == []; }
    if k == 0 {
      assert ws[..0] == [];
    } else if k == 1 {
      assert ws[..1] == [ws[0]];
      assert Play(cells, [ws[0]]) == Play(cells[now := End(junk)], []);
    } else {
      var two := cells[now := End(junk)][now := End(size)];
      assert ws[..k] == [ws[0], ws[1]] + nils[..k - 2];
      assert ws[..k][1..] == [ws[1]] + nils[..k - 2];
      assert ws[..k][1..][1..] == nils[..k - 2];
      assert Play(cells, ws[..k]) == Play(two, nils[..k - 2]);
      if was < now { NilsPlayed(two, was, now, k - 2); } else { assert nils[..k - 2] == []; }
    }
  }

  /** After every single write of asize's in-place path a scan meets an End inside the buffer, and sees either
      the old elements or the resized ones. */
  lemma AsizeAtomic(cells: seq<Value>, was: nat, now: nat, junk: int, k: nat)
    requires Terminated(cells, was) && 0 < now <= cells[was].size
    requires k <= |AsizeWrites(was, now, cells[was].size, junk)|
    ensures var p := Play(cells, AsizeWrites(was, now, cells[was].size, junk)[..k]);
            Sees(p, cells[..was]) || Sees(p, Resized(cells[..was], now))
    ensures Terminated(Play(cells, AsizeWrites(was, now, cells[was].size, junk)), now)
    ensures Play(cells, AsizeWrites(was, now, cells[was].size, junk))[..now] == Resized(cells[..was], now)
  {
    var ws := AsizeWrites(was, now, cells[was].size, junk);
    AsizePlayed(cells, was, now, cells[was].size, junk, |ws|);
    assert ws[..|ws|] == ws;
    var done := Play(cells, ws);
    assert done[..now] == Resized(cells[..was], now);
    AsizePlayed(cells, was, now, cells[was].size, junk, k);
    var p := Play(cells, ws[..k]);
    if now <= was {
      if k == 0 { SeesAt(cells, was); } else {
        SeesAt(p, now);
        assert p[..now] == cells[..was][..now];
      }
    } else if k < |ws| {
      SeesAt(p, was);
      assert p[..was] == cells[..was];
    } else {
      SeesAt(done, now);
    }
  }

  // ----- the operations -----

  /** error_arg and error_idx leave the operation without touching the arrays. */
  datatype Outcome = Done | ArgumentError | IndexError

  /** The arguments of a call: those beyond n are ignored, missing ones are NIL. */
  function Arguments(stack: seq<Value>, argno: nat, n: nat): (a: seq<Value>)
    requires argno <= |stack|
    ensures |a| == n && forall i :: 0 <= i < n ==> a[i] == if i < argno then stack[|stack| - argno + i] else Nil
  {
    var given := stack[|stack| - argno..];
    if argno >= n then given[..n] else given + seq(n - argno, _ => Nil)
  }

  predicate IsArray(v: Value) { v.Container? && v.kind == Kind.Array && v.oref.Some? }

  predicate IsNumber(v: Value) { v.Plain? && v.basic == Number }

  lemma ArgumentsTyped(stack: seq<Value>, argno: nat, n: nat)
    requires argno <= |stack|
    ensures forall v :: v in Arguments(stack, argno, n) ==> v in stack || v == Nil
  {
  }

  function Inserted(e: seq<Value>, pos: nat): (r: seq<Value>)
    requires 1 <= pos <= |e|
    ensures |r| == |e|
    ensures forall i :: 0 <= i < |e| ==> r[i] == if i < pos - 1 then e[i] else if i == pos - 1 then Nil else e[i - 1]
  {
    e[..pos - 1] + [Nil] + e[pos - 1..|e| - 1]
  }

  function Deleted(e: seq<Value>, pos: nat): (r: seq<Value>)
    requires 1 <= pos <= |e|
    ensures |r| == |e|
    ensures forall i :: 0 <= i < |e| ==> r[i] == if i < pos - 1 then e[i] else if i < |e| - 1 then e[i + 1] else Nil
  {
    e[..pos - 1] + e[pos..] + [Nil]
  }

  class Runtime {
    var mem: map<nat, seq<Value>>
    var ptr: seq<nat>
    var length: seq<int>
    var used: seq<bool>
    var brk: nat
    ghost var released: seq<nat>
    var stack: seq<Value>

    ghost function Memory(): Store
      reads this
    {
      Store(mem, ptr, length, brk, released)
    }

    ghost predicate Valid()
      reads this
    {
      && Owned(Memory()) && |used| == |ptr| && brk > 0
      && (forall o :: 0 <= o < |ptr| ==> !used[o] ==> ptr[o] == 0)
      && (forall v :: v in stack ==> !v.End?)
    }

    /** The elements of array o. */
    ghost function Array(o: nat): seq<Value>
      reads this
      requires Valid() && o < |ptr|
    {
      Elements(Memory(), o)
    }

    constructor (orefs: nat)
      ensures Valid() && mem == map[] && stack == [] && |ptr| == orefs && released == []
      ensures used == seq(orefs, _ => false)
    {
      mem, stack, brk, released := map[], [], 1, [];
      ptr, length, used := seq(orefs, _ => 0), seq(orefs, _ => 0), seq(orefs, _ => false);
    }

    ghost predicate OthersKept(st: Store, o: nat)
      reads this
      requires Valid() && Owned(st) && |st.ptr| == |ptr|
    {
      forall u: nat :: u < |ptr| && u != o ==> Array(u) == Elements(st, u)
    }

    /** A free oref takes a new buffer. */
    method Install(o: nat, cells: seq<Value>, len: nat)
      requires Valid() && o < |used| && !used[o] && Terminated(cells, len)
      modifies this`mem, this`ptr, this`length, this`brk, this`used
      ensures Valid() && |ptr| == old(|ptr|) && used == old(used)[o := true]
      ensures Array(o) == cells[..len] && OthersKept(old(Memory()), o)
    {
      ghost var st := Memory();
      AttachOwned(st, o, cells, len);
      hide Owned, Elements, Terminated;
      mem, ptr, length, brk := mem[brk := cells], ptr[o := brk], length[o := len], brk + 1;
      assert Memory() == Attach(st, o, cells, len);
      used := used[o := true];
    }

    /** array: the top len values become the elements of a new array, which takes their place. */
    method MakeArray(len: nat, o: nat)
      requires Valid() && len <= |stack| && o < |used| && !used[o]
      modifies this
      ensures Valid() && |ptr| == old(|ptr|)
      ensures stack == old(stack)[..old(|stack|) - len] + [Container(Kind.Array, Some(o))]
      ensures Array(o) == old(stack)[old(|stack|) - len..] && OthersKept(old(Memory()), o)
      ensures used == old(used)[o := true]
    {
      ghost var st := Memory();
      var base := |stack| - len;
      assert Elements(st, o) == [];
      hide Owned, Elements;
      if len > 0 {
        var cells := stack[base..] + [End(len + EXTSIZ)] + seq(EXTSIZ, _ => Nil);
        assert cells[..len] == stack[base..];
        Install(o, cells, len);
      } else {
        used := used[o := true];
      }
      stack := stack[..base] + [Container(Kind.Array, Some(o))];
    }

    /** array0: a new array of len NILs is pushed. */
    method MakeArray0(len: nat, o: nat)
      requires Valid() && o < |used| && !used[o]
      modifies this
      ensures Valid() && |ptr| == old(|ptr|)
      ensures stack == old(stack) + [Container(Kind.Array, Some(o))]
      ensures Array(o) == seq(len, _ => Nil) && OthersKept(old(Memory()), o)
      ensures used == old(used)[o := true]
    {
      ghost var st := Memory();
      assert Elements(st, o) == [];
      hide Owned, Elements;
      if len > 0 {
        var cells := seq(len, _ => Nil) + [End(len)];
        assert cells[..len] == seq(len, _ => Nil);
        Install(o, cells, len);
      } else {
        used := used[o := true];
      }
      stack := stack + [Container(Kind.Array, Some(o))];
    }

    /** block: the top len values become the environment of a new block; a block without one has no oref. */
    method MakeBlock(len: nat, o: nat)
      requires Valid() && len <= |stack| && o < |used| && !used[o]
      modifies this
      ensures Valid() && |ptr| == old(|ptr|)
      ensures stack == old(stack)[..old(|stack|) - len] + [Container(Block, if len > 0 then Some(o) else None)]
      ensures Array(o) == old(stack)[old(|stack|) - len..] && OthersKept(old(Memory()), o)
      ensures used == if len > 0 then old(used)[o := true] else old(used)
    {
      ghost var st := Memory();
      assert Elements(st, o) == [];
      hide Owned, Elements;
      if len > 0 {
        var base := |stack| - len;
        var cells := stack[base..] + [End(len)];
        assert cells[..len] == stack[base..];
        Install(o, cells, len);
        stack := stack[..base] + [Container(Block, Some(o))];
      } else {
        stack := stack + [Container(Block, None)];
      }
    }

    /** The buffer of o, the new one before the old one is released. */
    method Replace(o: nat, cells: seq<Value>, len: nat)
      requires Valid() && o < |ptr| && used[o] && Terminated(cells, len)
      modifies this`mem, this`ptr, this`length, this`brk, this`released
      ensures Valid() && |ptr| == old(|ptr|)
      ensures Array(o) == cells[..len] && OthersKept(old(Memory()), o)
    {
      ghost var st := Memory();
      var old_ := ptr[o];
      ReplaceOwned(st, o, cells, len);
      hide Owned, Terminated;
      mem, ptr, length, brk := mem[brk := cells], ptr[o := brk], length[o := len], brk + 1;
      if old_ != 0 {
        mem := mem - {old_};
        released := released + [old_];
      }
      assert Memory() == Replaced(st, o, cells, len);
    }

    /** The cells of o are overwritten where they are. */
    method Overwrite(o: nat, cells: seq<Value>, len: nat)
      requires Valid() && o < |ptr| && ptr[o] != 0 && Terminated(cells, len)
      modifies this`mem, this`length
      ensures Valid() && Array(o) == cells[..len] && OthersKept(old(Memory()), o)
    {
      ghost var st := Memory();
      RewriteOwned(st, o, cells, len);
      mem, length := mem[ptr[o] := cells], length[o := len];
      assert Memory() == Rewrite(st, o, cells, len);
    }

    /** The length of array o, and how many cells its buffer has besides one for the End. */
    method Extent(o: nat) returns (len: nat, room: int)
      requires Valid() && o < |ptr|
      ensures len == |Array(o)| && (ptr[o] == 0 ==> len == room == 0)
      ensures ptr[o] != 0 ==>
        ptr[o] in mem && Terminated(mem[ptr[o]], len) && room == mem[ptr[o]][len].size && Array(o) == mem[ptr[o]][..len]
    {
      assert ptr[o] != 0 ==> Owns(Memory(), o, ptr[o]);
      len := length[o];
      room := if ptr[o] != 0 then mem[ptr[o]][len].size else 0;
    }

    /** The load of one element. */
    method Read(o: nat, i: nat) returns (v: Value)
      requires Valid() && o < |ptr| && i < |Array(o)|
      ensures v == Array(o)[i] && !v.End?
    {
      assert Owns(Memory(), o, ptr[o]);
      v := mem[ptr[o]][i];
    }

    /** The store to one element. */
    method Write(o: nat, i: nat, v: Value)
      requires Valid() && o < |ptr| && i < |Array(o)| && !v.End?
      modifies this`mem, this`length
      ensures Valid() && OthersKept(old(Memory()), o)
      ensures Array(o) == Elements(old(Memory()), o)[i := v]
    {
      var len, room := Extent(o);
      hide Owned, Elements;
      var cells := mem[ptr[o]];
      Overwrite(o, cells[i := v], len);
      assert cells[i := v][..len] == cells[..len][i := v];
    }

    /** The locked part of aadd. */
    method Append(o: nat, v: Value)
      requires Valid() && o < |ptr| && used[o] && !v.End?
      modifies this`mem, this`ptr, this`length, this`brk, this`released
      ensures Valid() && |ptr| == old(|ptr|)
      ensures Array(o) == Elements(old(Memory()), o) + [v] && OthersKept(old(Memory()), o)
    {
      var len, room := Extent(o);
      hide Owned, Elements;
      if len + 1 <= room {
        var cells := mem[ptr[o]];
        AaddAtomic(cells, len, v, 2);
        var now := cells[len + 1 := cells[len]][len := v];
        Overwrite(o, now, len + 1);
        assert now[..len + 1] == cells[..len] + [v];
      } else {
        var was := if ptr[o] != 0 then mem[ptr[o]][..len] else [];
        var cells := was + [v] + [End(len + 1 + EXTSIZ)] + seq(EXTSIZ, _ => Nil);
        assert cells[..len + 1] == was + [v];
        Replace(o, cells, len + 1);
      }
    }

    /** The NIL loop of asize's in-place path, and the writes in front of it. */
    method FillDown(cells: seq<Value>, was: nat, now: nat, size: int, ghost junk: int) returns (r: seq<Value>)
      requires was < |cells| && now < |cells|
      ensures r == Play(cells, AsizeWrites(was, now, size, junk))
    {
      r := cells[now := End(size)];
      ghost var ws := AsizeWrites(was, now, size, junk);
      assert ws[1..] == [ws[1]] + NilWrites(was, now) && ws[1..][1..] == NilWrites(was, now);
      assert cells[now := End(junk)][now := End(size)] == r;
      assert Play(cells, ws) == Play(cells[now := End(junk)], ws[1..]) == Play(r, ws[1..][1..]);
      var i := now;
      while was < i
        invariant i <= now && |r| == |cells|
        invariant Play(r, NilWrites(was, i)) == Play(cells, ws)
      {
        ghost var nils := NilWrites(was, i);
        i := i - 1;
        assert nils[1..] == NilWrites(was, i);
        r := r[i := Nil];
      }
    }

    /** The locked part of asize. */
    method Resize(o: nat, now: nat)
      requires Valid() && o < |ptr| && used[o]
      modifies this`mem, this`ptr, this`length, this`brk, this`released
      ensures Valid() && |ptr| == old(|ptr|)
      ensures Array(o) == Resized(Elements(old(Memory()), o), now) && OthersKept(old(Memory()), o)
    {
      var was, room := Extent(o);
      ghost var e := Array(o);
      if ptr[o] != 0 && now != 0 && now <= room && room - now < EXTSIZ * 4 {
        var cells := mem[ptr[o]];
        hide Owned, Elements;
        AsizeAtomic(cells, was, now, 0, 0);
        var r := FillDown(cells, was, now, room, 0);
        Overwrite(o, r, now);
      } else if now > 0 {
        var kept := if ptr[o] != 0 then mem[ptr[o]][..if was < now then was else now] else [];
        var cells := kept + seq(now - |kept|, _ => Nil) + [End(now + EXTSIZ)] + seq(EXTSIZ, _ => Nil);
        assert cells[..now] == Resized(e, now);
        hide Owned, Elements;
        Replace(o, cells, now);
      } else {
        ghost var st := Memory();
        DropOwned(st, o);
        if ptr[o] != 0 {
          var gone := ptr[o];
          ptr, length := ptr[o := 0], length[o := 0];
          mem := mem - {gone};
          released := released + [gone];
        }
        assert Memory() == Drop(st, o);
        assert Resized(e, 0) == [];
      }
    }

    /** The locked part of ains and adel: the elements are moved by one cell with memmove. */
    method Shift(o: nat, pos: nat, insert: bool)
      requires Valid() && o < |ptr| && used[o] && 1 <= pos <= |Array(o)|
      modifies this`mem, this`length
      ensures Valid() && OthersKept(old(Memory()), o)
      ensures var e := Elements(old(Memory()), o);
              Array(o) == if insert then Inserted(e, pos) else Deleted(e, pos)
    {
      var len, room := Extent(o);
      hide Owned, Elements;
      var cells := mem[ptr[o]];
      var moved := if insert then cells[..pos - 1] + [Nil] + cells[pos - 1..len - 1] + cells[len..]
                   else cells[..pos - 1] + cells[pos..len] + [Nil] + cells[len..];
      ShiftedCells(cells, len, pos, insert, moved);
      Overwrite(o, moved, len);
    }

    ghost predicate Typed()
      reads this
    {
      forall v :: v in stack && v.Container? && v.oref.Some? ==> v.oref.value < |used| && used[v.oref.value]
    }

    /** aadd(a, v): v is appended to a and is the result. */
    method Aadd(argno: nat) returns (r: Outcome)
      requires Valid() && Typed() && argno <= |stack|
      modifies this`mem, this`ptr, this`length, this`brk, this`released, this`stack
      ensures Valid() && |ptr| == old(|ptr|)
      ensures var base := |old(stack)| - argno;
              var a := if argno > 0 then old(stack)[base] else Nil;
              var v := if argno > 1 then old(stack)[base + 1] else Nil;
              if IsArray(a) then
                var o := a.oref.value;
                r == Done && o < |ptr|
                && Array(o) == Elements(old(Memory()), o) + [v] && OthersKept(old(Memory()), o)
                && stack == old(stack)[..base] + [v]
              else r == ArgumentError && Memory() == old(Memory()) && stack == old(stack)[..base] + [a, v]
    {
      var base, args := |stack| - argno, Arguments(stack, argno, 2);
      ArgumentsTyped(stack, argno, 2);
      stack := stack[..base] + args;
      if !IsArray(args[0]) {
        return ArgumentError;
      }
      Append(args[0].oref.value, args[1]);
      stack := stack[..base] + [args[1]];
      r := Done;
    }

    /** An array or object and a number, as idxr and idxxl want them on top of the stack. */
    predicate Indexable()
      reads this
    {
      |stack| >= 2 && IsNumber(stack[|stack| - 1])
      && var a := stack[|stack| - 2]; a.Container? && a.kind != Block && a.oref.Some?
    }

    /** idxr on an array: a and i are replaced by a[i]. */
    method Idxr() returns (r: Outcome)
      requires Valid() && Typed() && Indexable()
      modifies this`stack
      ensures Valid() && |old(stack)| >= 2
      ensures var (top, o, i) := (|old(stack)| - 2, old(stack[|stack| - 2].oref.value), old(stack[|stack| - 1].bits));
              o < |ptr| &&
              if i < 1 || |Array(o)| < i then r == IndexError && stack == old(stack)
              else r == Done && stack == old(stack)[..top] + [Array(o)[i - 1]]
    {
      var top := |stack| - 2;
      var o, i := stack[top].oref.value, stack[top + 1].bits;
      assert stack[top] in stack;
      var len, room := Extent(o);
      hide Owned, Elements;
      if i < 1 || len < i {
        return IndexError;
      }
      var v := Read(o, i - 1);
      stack := stack[..top] + [v];
      r := Done;
    }

    /** idxxl on an array, and the assignment through the address it gives: a[i] := v, and i is popped. */
    method Idxxl(v: Value) returns (r: Outcome)
      requires Valid() && Typed() && Indexable() && !v.End?
      modifies this`mem, this`length, this`stack
      ensures Valid() && |ptr| == old(|ptr|) && |old(stack)| >= 2
      ensures var (top, o, i) := (|old(stack)| - 2, old(stack[|stack| - 2].oref.value), old(stack[|stack| - 1].bits));
              o < |ptr| &&
              var e := Elements(old(Memory()), o);
              if i < 1 || |e| < i then r == IndexError && stack == old(stack) && Memory() == old(Memory())
              else
                r == Done && stack == old(stack)[..top + 1] && Array(o) == e[i - 1 := v] && OthersKept(old(Memory()), o)
    {
      hide Owned, Elements;
      var top := |stack| - 2;
      var o, i := stack[top].oref.value, stack[top + 1].bits;
      assert stack[top] in stack;
      var len, room := Extent(o);
      if i < 1 || len < i {
        return IndexError;
      }
      Write(o, i - 1, v);
      stack := stack[..top + 1];
      r := Done;
    }

    /** asize(a, n): a gets n elements, cut or padded with NILs, and is the result. */
    method Asize(argno: nat) returns (r: Outcome)
      requires Valid() && Typed() && argno <= |stack|
      modifies this`mem, this`ptr, this`length, this`brk, this`released, this`stack
      ensures Valid() && |ptr| == old(|ptr|)
      ensures var base := |old(stack)| - argno;
              var a := if argno > 0 then old(stack)[base] else Nil;
              var n := if argno > 1 then old(stack)[base + 1] else Nil;
              if IsArray(a) && IsNumber(n) && n.bits >= 0 then
                var o := a.oref.value;
                r == Done && o < |ptr|
                && Array(o) == Resized(Elements(old(Memory()), o), n.bits) && OthersKept(old(Memory()), o)
                && stack == old(stack)[..base] + [a]
              else r == ArgumentError && Memory() == old(Memory()) && stack == old(stack)[..base] + [a, n]
    {
      var base, args := |stack| - argno, Arguments(stack, argno, 2);
      ArgumentsTyped(stack, argno, 2);
      stack := stack[..base] + args;
      if !IsArray(args[0]) || !IsNumber(args[1]) || args[1].bits < 0 {
        return ArgumentError;
      }
      Resize(args[0].oref.value, args[1].bits);
      stack := stack[..base] + [args[0]];
      r := Done;
    }

    /** The index check of ains and adel, and the shift. */
    method ShiftChecked(o: nat, pos: int, insert: bool) returns (r: Outcome)
      requires Valid() && o < |ptr| && used[o]
      modifies this`mem, this`length
      ensures Valid()
      ensures var e := Elements(old(Memory()), o);
              if pos < 1 || |e| < pos then r == IndexError && Memory() == old(Memory())
              else r == Done && Array(o) == (if insert then Inserted(e, pos) else Deleted(e, pos)) && OthersKept(old(Memory()), o)
    {
      var len, room := Extent(o);
      hide Owned, Elements, Inserted, Deleted;
      if pos < 1 || len < pos {
        return IndexError;
      }
      Shift(o, pos, insert);
      r := Done;
    }

    /** ains(a, pos) and adel(a, pos): the elements from pos on move by one, and a is the result. */
    method AinsAdel(argno: nat, insert: bool) returns (r: Outcome)
      requires Valid() && Typed() && argno <= |stack|
      modifies this`mem, this`length, this`stack
      ensures Valid()
      ensures var base := |old(stack)| - argno;
              var a := if argno > 0 then old(stack)[base] else Nil;
              var n := if argno > 1 then old(stack)[base + 1] else Nil;
              if !IsArray(a) || !IsNumber(n) then
                r == ArgumentError && Memory() == old(Memory()) && stack == old(stack)[..base] + [a, n]
              else
                var o, pos := a.oref.value, n.bits;
                o < |ptr| &&
                var e := Elements(old(Memory()), o);
                if pos < 1 || |e| < pos then
                  r == IndexError && Memory() == old(Memory()) && stack == old(stack)[..base] + [a, n]
                else
                  r == Done && Array(o) == (if insert then Inserted(e, pos) else Deleted(e, pos))
                  && OthersKept(old(Memory()), o) && stack == old(stack)[..base] + [a]
    {
      var base, args := |stack| - argno, Arguments(stack, argno, 2);
      ArgumentsTyped(stack, argno, 2);
      stack := stack[..base] + args;
      if !IsArray(args[0]) || !IsNumber(args[1]) {
        return ArgumentError;
      }
      hide Owned, Elements, Inserted, Deleted;
      r := ShiftChecked(args[0].oref.value, args[1].bits, insert);
      if r == Done {
        stack := stack[..base] + [args[0]];
      }
    }

    /** What sweep does with a white oref: its buffer is released if it owns one. */
    method Free(o: nat)
      requires Valid() && o < |ptr| && used[o]
      modifies this`mem, this`ptr, this`length, this`used, this`released
      ensures Valid() && |ptr| == old(|ptr|) && used == old(used)[o := false]
      ensures ptr[o] == 0 && OthersKept(old(Memory()), o)
      ensures released == if old(length[o]) != 0 then old(released) + [old(ptr[o])] else old(released)
    {
      ghost var st := Memory();
      DropOwned(st, o);
      if length[o] != 0 {
        mem := mem - {ptr[o]};
        released := released + [ptr[o]];
      }
      ptr, length := ptr[o := 0], length[o := 0];
      used := used[o := false];
      assert ptr[o := 0] == ptr && length[o := 0] == length;
      assert Memory() == Drop(st, o);
    }
  }

  lemma ShiftedCells(cells: seq<Value>, len: nat, pos: nat, insert: bool, moved: seq<Value>)
    requires Terminated(cells, len) && 1 <= pos <= len
    requires moved == if insert then cells[..pos - 1] + [Nil] + cells[pos - 1..len - 1] + cells[len..]
                      else cells[..pos - 1] + cells[pos..len] + [Nil] + cells[len..]
    ensures Terminated(moved, len)
    ensures moved[..len] == if insert then Inserted(cells[..len], pos) else Deleted(cells[..len], pos)
  {
    assert moved[len] == cells[len];
    if insert {
      assert cells[pos - 1..len - 1] == cells[..len][pos - 1..len - 1];
    } else {
      assert cells[pos..len] == cells[..len][pos..];
    }
  }
}
