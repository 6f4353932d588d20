/** The 32-bit UTF-8 codec of ccclib/src/utf8conv.cpp. */
module Utf8conv {

  type Byte = bv8
  type Code = bv32

  predicate Cont(x: Byte) { x & 0xc0 == 0x80 }

  function Low6(x: Byte): Code { (x & 0x3f) as Code }

  /** The length a lead byte announces; 0 for a continuing byte. */
  function SeqLen(c: Byte): (n: nat)
    ensures n <= 6 && (n == 0 <==> Cont(c)) && (n == 1 <==> c < 0x80)
  {
    if c < 0x80 then 1
    else if c & 0xe0 == 0xc0 then 2
    else if c & 0xf0 == 0xe0 then 3
    else if c & 0xf8 == 0xf0 then 4
    else if c & 0xfc == 0xf8 then 5
    else if c & 0xc0 == 0x80 then 0
    else 6
  }

  /** The bits of the code in a lead byte; 0xfe and 0xff extend the six byte form to 32 bits. */
  function LeadBits(c: Byte): Code {
    match SeqLen(c)
    case 0 => 0
    case 1 => c as Code
    case 2 => (c & 0x1f) as Code
    case 3 => (c & 0x0f) as Code
    case 4 => (c & 0x07) as Code
    case 5 => (c & 0x03) as Code
    case _ => (c & 0x03) as Code
  }

  function Append6(code: Code, x: Byte): Code { (code << 6) | Low6(x) }

  /** One continuing byte after the other is appended. */
  function Fold(code: Code, tail: seq<Byte>): Code
    decreases |tail|
  {
    if tail == [] then code else Fold(Append6(code, tail[0]), tail[1..])
  }

  /** How many of the first n bytes of b are continuing bytes in a row. */
  function Run(b: seq<Byte>, n: nat): (k: nat)
    ensures k <= n && k <= |b|
    ensures forall i :: 0 <= i < k ==> Cont(b[i])
    ensures k < n && k < |b| ==> !Cont(b[k])
    decreases n
  {
    if n == 0 || b == [] || !Cont(b[0]) then 0 else 1 + Run(b[1..], n - 1)
  }

  /** The code at the front of b, or 0 if it is malformed, and the number of bytes it took. */
  function Decode(b: seq<Byte>): (r: (Code, nat))
    requires b != []
    ensures 1 <= r.1 <= |b|
  {
    var n := SeqLen(b[0]);
    if n == 0 then (0, 1)
    else
      var k := Run(b[1..], n - 1);
      if k < n - 1 then (0, k + 1) else (Fold(LeadBits(b[0]), b[1..n]), n)
  }

  /** The first byte of a sequence that is not a character by itself. */
  method Lead(c: Byte) returns (len: nat, code: Code)
    requires c >= 128
    ensures len == SeqLen(c) && code == LeadBits(c)
  {
    len, code := 0, 0;
    if c & 0xe0 == 0xc0 { len := 2; code := (c & 0x1f) as Code; }
    else if c & 0xf0 == 0xe0 { len := 3; code := (c & 0x0f) as Code; }
    else if c & 0xf8 == 0xf0 { len := 4; code := (c & 0x07) as Code; }
    else if c & 0xfc == 0xf8 { len := 5; code := (c & 0x03) as Code; }
    else if c & 0xfe == 0xfc { len := 6; code := (c & 0x01) as Code; }
    else if c == 0xfe { len := 6; code := 2; }
    else if c == 0xff { len := 6; code := 3; }
  }

  /** utf8_to_ucs, on a byte array that ends with a 0. No byte behind that is looked at. */
  method Utf8ToUcs(utf8: seq<Byte>, at: nat) returns (ucs: Code, used: nat)
    requires at < |utf8| - 1 && utf8[|utf8| - 1] == 0
    ensures (ucs, used) == Decode(utf8[at..|utf8| - 1])
  {
    ghost var b := utf8[at..|utf8| - 1];
    var c := utf8[at];
    if c < 128 {
      assert b[1..1] == [];
      return c as Code, 1;
    }
    ucs, used := Sequence(utf8, at, b);
  }

  method Sequence(utf8: seq<Byte>, at: nat, ghost b: seq<Byte>) returns (ucs: Code, used: nat)
    requires at < |utf8| - 1 && utf8[|utf8| - 1] == 0 && b == utf8[at..|utf8| - 1] && utf8[at] >= 128
    ensures (ucs, used) == Decode(b)
  {
    hide *;
    var c := utf8[at];
    var len, code := Lead(c);
    ghost var lead := code;
    ZeroIsNotCont();
    var i := 1;
    assert Fold(lead, b[1..1]) == lead by { FoldNone(lead, b[1..1]); }
    while i < len
      invariant 1 <= i <= |b| && (i <= len || (i == 1 && len == 0))
      invariant forall j :: 1 <= j < i ==> Cont(b[j])
      invariant code == Fold(lead, b[1..i])
    {
      ghost var before := code;
      code := code << 6;
      var x := utf8[at + i];
      if !Cont(x) {
        DecodeCut(b, i);
        return 0, i;
      } else {
        assert b[i] == x;
        FoldMore(lead, b[1..i], x);
        assert b[1..i + 1] == b[1..i] + [x];
        code := code | Low6(x);
        AppendIs(before, code, x);
      }
      i := i + 1;
    }
    ucs, used := code, i;
    DecodeWhole(b, i);
    NoLead(c);
  }

  lemma ZeroIsNotCont()
    ensures !Cont(0)
  {
  }

  lemma FoldNone(code: Code, tail: seq<Byte>)
    requires tail == []
    ensures Fold(code, tail) == code
  {
  }

  lemma NoLead(c: Byte)
    ensures SeqLen(c) == 0 ==> LeadBits(c) == 0
  {
  }

  lemma AppendIs(before: Code, after: Code, x: Byte)
    requires after == (before << 6) | Low6(x)
    ensures after == Append6(before, x)
  {
  }

  lemma {:induction false} RunIs(b: seq<Byte>, n: nat, k: nat)
    requires k <= n && k <= |b| && (forall i :: 0 <= i < k ==> Cont(b[i])) && (k < n && k < |b| ==> !Cont(b[k]))
    ensures Run(b, n) == k
    decreases n
  {
    if k > 0 { RunIs(b[1..], n - 1, k - 1); }
  }

  /** A sequence that breaks off after i bytes. */
  lemma DecodeCut(b: seq<Byte>, i: nat)
    requires 1 <= i <= |b| && i < SeqLen(b[0]) && forall j :: 1 <= j < i ==> Cont(b[j])
    requires i < |b| ==> !Cont(b[i])
    ensures Decode(b) == (0, i)
  {
    RunIs(b[1..], SeqLen(b[0]) - 1, i - 1);
  }

  /** A complete sequence, or a continuing byte where there should be none. */
  lemma DecodeWhole(b: seq<Byte>, i: nat)
    requires 1 <= i <= |b| && forall j :: 1 <= j < i ==> Cont(b[j])
    requires i == SeqLen(b[0]) || (SeqLen(b[0]) == 0 && i == 1)
    ensures Decode(b) == (Fold(LeadBits(b[0]), b[1..i]), i)
  {
    NoLead(b[0]);
    hide LeadBits;
    if SeqLen(b[0]) > 0 { RunIs(b[1..], i - 1, i - 1); }
  }

  lemma {:induction false} FoldMore(code: Code, tail: seq<Byte>, x: Byte)
    ensures Fold(code, tail + [x]) == Append6(Fold(code, tail), x)
    decreases |tail|
  {
    hide Append6;
    if tail == [] {
      assert (tail + [x])[1..] == [];
    } else {
      FoldMore(Append6(code, tail[0]), tail[1..], x);
      assert (tail + [x])[1..] == tail[1..] + [x];
    }
  }

  // ----- encoding -----

  /** The shortest form (section 2 of RFC 2279, continued to 32 bits). */
  function Length(ucs: Code): (n: nat)
    ensures 1 <= n <= 6
  {
    if ucs < 0x80 then 1
    else if ucs < 0x800 then 2
    else if ucs < 0x1_0000 then 3
    else if ucs < 0x20_0000 then 4
    else if ucs < 0x400_0000 then 5
    else 6
  }

  function TailByte(x: Code): Byte { 0x80 | (x & 0x3f) as Byte }

  function Encode(ucs: Code): (b: seq<Byte>)
    ensures |b| == Length(ucs)
  {
    match Length(ucs)
    case 1 => [ucs as Byte]
    case 2 => [0xc0 | (ucs >> 6) as Byte, TailByte(ucs)]
    case 3 => [0xe0 | (ucs >> 12) as Byte, TailByte(ucs >> 6), TailByte(ucs)]
    case 4 => [0xf0 | (ucs >> 18) as Byte, TailByte(ucs >> 12), TailByte(ucs >> 6), TailByte(ucs)]
    case 5 => [0xf8 | (ucs >> 24) as Byte, TailByte(ucs >> 18), TailByte(ucs >> 12), TailByte(ucs >> 6), TailByte(ucs)]
    case _ =>
      [0xfc | (ucs >> 30) as Byte, TailByte(ucs >> 24), TailByte(ucs >> 18), TailByte(ucs >> 12), TailByte(ucs >> 6), TailByte(ucs)]
  }

  /** The bytes so far cannot hold the code yet. */
  predicate Unfinished(code: Code, hdr: Byte, last: Byte) {
    code != 0 || (hdr >> 1) & 0xfc & last != 0
  }

  function Drop6(code: Code): Code { code >> 6 }

  function Widened(hdr: Byte): Byte { 0x80 | (hdr >> 1) }

  function Headed(last: Byte, hdr: Byte): Byte { last | hdr }

  /** What is left of the code after i bytes have been taken from its end. */
  function Rest(ucs: Code, i: nat): Code {
    if i == 0 then ucs
    else if i == 1 then ucs >> 6
    else if i == 2 then ucs >> 12
    else if i == 3 then ucs >> 18
    else if i == 4 then ucs >> 24
    else if i == 5 then ucs >> 30
    else 0
  }

  function Header(i: nat): Byte {
    if i == 0 then 0
    else if i == 1 then 0x80
    else if i == 2 then 0xc0
    else if i == 3 then 0xe0
    else if i == 4 then 0xf0
    else if i == 5 then 0xf8
    else 0xfc
  }

  lemma Rest0(ucs: Code)
    ensures Drop6(Rest(ucs, 0)) == Rest(ucs, 1)
  {
  }

  lemma Rest1(ucs: Code)
    ensures Drop6(Rest(ucs, 1)) == Rest(ucs, 2)
  {
  }

  lemma Rest2(ucs: Code)
    ensures Drop6(Rest(ucs, 2)) == Rest(ucs, 3)
  {
  }

  lemma Rest3(ucs: Code)
    ensures Drop6(Rest(ucs, 3)) == Rest(ucs, 4)
  {
  }

  lemma Rest4(ucs: Code)
    ensures Drop6(Rest(ucs, 4)) == Rest(ucs, 5)
  {
  }

  lemma Rest5(ucs: Code)
    ensures Drop6(Rest(ucs, 5)) == Rest(ucs, 6)
  {
  }

  lemma RestFurther(ucs: Code, i: nat)
    requires i < 6
    ensures Drop6(Rest(ucs, i)) == Rest(ucs, i + 1)
  {
    hide *;
    match i
    case 0 => Rest0(ucs);
    case 1 => Rest1(ucs);
    case 2 => Rest2(ucs);
    case 3 => Rest3(ucs);
    case 4 => Rest4(ucs);
    case _ => Rest5(ucs);
  }

  lemma HeaderFurther(i: nat)
    requires i < 6
    ensures Header(i + 1) == Widened(Header(i))
  {
  }

  /** The loop condition tells whether the bytes so far, with the header in the last of them, hold the code. */
  lemma GoesOn(ucs: Code, i: nat)
    requires 1 <= i <= 6 && ucs >= 0x80
    ensures Unfinished(Rest(ucs, i), Header(i), TailByte(Rest(ucs, i - 1))) <==> i < Length(ucs)
  {
  }

  lemma EncodeIs(ucs: Code)
    requires ucs >= 0x80
    ensures var n, b := Length(ucs), Encode(ucs);
            n >= 2 && b[0] == Headed(TailByte(Rest(ucs, n - 1)), Header(n))
            && forall t :: 1 <= t < n ==> b[t] == TailByte(Rest(ucs, n - 1 - t))
  {
  }

  lemma EncodeAscii(ucs: Code)
    requires ucs < 128
    ensures Encode(ucs) == [ucs as Byte]
  {
  }

  lemma Unbegun(ucs: Code)
    ensures Rest(ucs, 0) == ucs && Header(0) == 0 && (ucs >= 0x80 ==> Unfinished(ucs, 0, 0))
  {
  }

  /** ucs_to_utf8. */
  method UcsToUtf8(ucs: Code) returns (utf8: seq<Byte>)
    ensures utf8 == Encode(ucs)
  {
    hide *;
    if ucs < 128 {
      EncodeAscii(ucs);
      return [ucs as Byte];
    }
    Unbegun(ucs);
    var buf := new Byte[8];
    var i := 0;
    var code, hdr: Byte := ucs, 0;
    buf[7 - i] := 0;
    while Unfinished(code, hdr, buf[7 - i])
      invariant i <= 6 && (i > 0 ==> i <= Length(ucs)) && code == Rest(ucs, i) && hdr == Header(i)
      invariant (i == 0 ==> buf[7] == 0) && forall t :: 7 - i <= t < 7 ==> buf[t] == TailByte(Rest(ucs, 6 - t))
      decreases 6 - i
    {
      if i > 0 { GoesOn(ucs, i); }
      RestFurther(ucs, i);
      HeaderFurther(i);
      i := i + 1;
      buf[7 - i] := TailByte(code);
      hdr := Widened(hdr);
      code := Drop6(code);
    }
    GoesOn(ucs, i);
    EncodeIs(ucs);
    buf[7 - i] := Headed(buf[7 - i], hdr);
    utf8 := buf[7 - i..7];
    assert |utf8| == |Encode(ucs)| == i;
    forall t | 0 <= t < i ensures utf8[t] == Encode(ucs)[t] {
      assert utf8[t] == buf[7 - i + t];
    }
  }

  // ----- round trip -----

  lemma LeadReadsBack(c: Code)
    ensures var b, n := Encode(c), Length(c); SeqLen(b[0]) == n && LeadBits(b[0]) == Rest(c, n - 1)
  {
  }

  lemma TailContinues(c: Code)
    ensures forall j :: 1 <= j < Length(c) ==> Cont(Encode(c)[j])
  {
    hide Encode, Length, TailByte, Rest, Header;
    Short(c);
    if c >= 0x80 {
      EncodeIs(c);
      forall j | 1 <= j < Length(c) ensures Cont(Encode(c)[j]) { TailIsCont(Rest(c, Length(c) - 1 - j)); }
    }
  }

  lemma TailIsCont(x: Code)
    ensures Cont(TailByte(x))
  {
  }

  lemma TailReadsBack(y: Code)
    ensures Append6(Drop6(y), TailByte(y)) == y
  {
  }

  lemma {:induction false} TailFolds(c: Code, k: nat, tail: seq<Byte>)
    requires k <= 6 && |tail| == k && forall t :: 0 <= t < k ==> tail[t] == TailByte(Rest(c, k - 1 - t))
    ensures Fold(Rest(c, k), tail) == c
    decreases k
  {
    Unbegun(c);
    if k > 0 {
      hide Append6, TailByte, Rest, Drop6;
      RestFurther(c, k - 1);
      TailReadsBack(Rest(c, k - 1));
      TailFolds(c, k - 1, tail[1..]);
    }
  }

  /** utf8_to_ucs gives back the code and the length that ucs_to_utf8 was given, for every 32-bit code. */
  lemma RoundTrip(c: Code, rest: seq<Byte>)
    ensures Decode(Encode(c) + rest) == (c, |Encode(c)|)
  {
    hide *;
    var e, n := Encode(c), Length(c);
    var b := e + rest;
    LeadReadsBack(c);
    TailContinues(c);
    DecodeWhole(b, n);
    assert b[1..n] == e[1..];
    if c < 0x80 {
      Short(c);
      FoldNone(LeadBits(b[0]), e[1..]);
      Unbegun(c);
    } else {
      EncodeIs(c);
      TailFolds(c, n - 1, e[1..]);
    }
  }

  lemma Short(c: Code)
    ensures c < 0x80 <==> Length(c) == 1
  {
  }

  /** What j more bytes after the first can have made of a sequence of n bytes. */
  predicate Within(n: nat, j: nat, x: Code) {
    match n
    case 2 => if j == 0 then x < 0x20 else x < 0x800
    case 3 => if j == 0 then x < 0x10 else if j == 1 then x < 0x400 else x < 0x1_0000
    case 4 => if j == 0 then x < 8 else if j == 1 then x < 0x200 else if j == 2 then x < 0x8000 else x < 0x20_0000
    case 5 =>
      if j == 0 then x < 4 else if j == 1 then x < 0x100 else if j == 2 then x < 0x4000
      else if j == 3 then x < 0x10_0000 else x < 0x400_0000
    case _ => true
  }

  lemma OneMoreByte(n: nat, j: nat, x: Code, y: Byte)
    requires Within(n, j, x) && j + 1 < n
    ensures Within(n, j + 1, Append6(x, y))
  {
    hide Append6;
    Grows(x, y);
  }

  lemma Grows(x: Code, y: Byte)
    ensures (x < 0x20 ==> Append6(x, y) < 0x800) && (x < 0x400 ==> Append6(x, y) < 0x1_0000)
    ensures (x < 0x8000 ==> Append6(x, y) < 0x20_0000) && (x < 0x10_0000 ==> Append6(x, y) < 0x400_0000)
    ensures (x < 0x10 ==> Append6(x, y) < 0x400) && (x < 8 ==> Append6(x, y) < 0x200) && (x < 4 ==> Append6(x, y) < 0x100)
    ensures (x < 0x200 ==> Append6(x, y) < 0x8000) && (x < 0x100 ==> Append6(x, y) < 0x4000)
    ensures x < 0x4000 ==> Append6(x, y) < 0x10_0000
  {
  }

  lemma {:induction false} FoldWithin(n: nat, j: nat, x: Code, tail: seq<Byte>)
    requires Within(n, j, x) && j + |tail| < n
    ensures Within(n, j + |tail|, Fold(x, tail))
    decreases |tail|
  {
    hide Within, Append6;
    if tail != [] {
      OneMoreByte(n, j, x, tail[0]);
      FoldWithin(n, j + 1, Append6(x, tail[0]), tail[1..]);
    }
  }

  lemma LeadWithin(c: Byte)
    ensures Within(SeqLen(c), 0, LeadBits(c))
  {
  }

  lemma WithinLength(n: nat, x: Code)
    requires 2 <= n <= 6 && Within(n, n - 1, x)
    ensures Length(x) <= n
  {
  }

  /** The examples of section 4 of RFC 2279, and one code for each length. */
  lemma Examples()
    ensures Encode(0x41) == [0x41] && Encode(0x2262) == [0xe2, 0x89, 0xa2] && Encode(0x391) == [0xce, 0x91]
    ensures Encode(0xd55c) == [0xed, 0x95, 0x9c] && Encode(0x65e5) == [0xe6, 0x97, 0xa5]
    ensures Encode(0x1_0348) == [0xf0, 0x90, 0x8d, 0x88] && Encode(0x20_0000) == [0xf8, 0x88, 0x80, 0x80, 0x80]
    ensures Encode(0x7fff_ffff) == [0xfd, 0xbf, 0xbf, 0xbf, 0xbf, 0xbf]
  {
  }

  /** A sequence that is not broken off. */
  predicate Complete(b: seq<Byte>) {
    b != [] && 1 <= SeqLen(b[0]) <= |b| && forall j :: 1 <= j < SeqLen(b[0]) ==> Cont(b[j])
  }

  /** No sequence shorter than the one ucs_to_utf8 makes is read as the same code. */
  lemma ShortestForm(b: seq<Byte>)
    requires Complete(b)
    ensures Decode(b).1 == SeqLen(b[0]) && |Encode(Decode(b).0)| <= Decode(b).1
  {
    hide Within, LeadBits, Decode, Length, Encode, SeqLen, Fold;
    var n := SeqLen(b[0]);
    DecodeWhole(b, n);
    if n > 1 {
      LeadWithin(b[0]);
      FoldWithin(n, 0, LeadBits(b[0]), b[1..n]);
      WithinLength(n, Decode(b).0);
    } else {
      Ascii(b[0]);
      FoldNone(LeadBits(b[0]), b[1..n]);
    }
  }

  lemma Ascii(c: Byte)
    requires SeqLen(c) == 1
    ensures Length(LeadBits(c)) == 1
  {
  }

  // ----- wide strings -----

  const QUESTION: Code := 0x3f

  /** The characters of a byte string; what is malformed becomes a question mark. */
  function Chars(b: seq<Byte>): seq<Code>
    decreases |b|
  {
    if b == [] then []
    else
      var (code, used) := Decode(b);
      [if code == 0 && b[0] != 0 then QUESTION else code] + Chars(b[used..])
  }

  function EncodeAll(w: seq<Code>): seq<Byte> {
    if w == [] then [] else EncodeAll(w[..|w| - 1]) + Encode(w[|w| - 1])
  }

  /** wchar_to_utf8. size is what has been allocated for the result. */
  method WcharToUtf8(wstr: seq<Code>) returns (utf8: seq<Byte>)
    ensures utf8 == EncodeAll(wstr)
  {
    hide Encode;
    var inc := 1024;
    var size := inc + |wstr| * 2;
    utf8 := [];
    var i := 0;
    while i < |wstr|
      invariant i <= |wstr| && utf8 == EncodeAll(wstr[..i]) && |utf8| < size
    {
      if |utf8| + 8 >= size {
        size := size + inc;
      }
      var seq_ := UcsToUtf8(wstr[i]);
      assert |utf8| + |seq_| + 1 <= size;
      utf8 := utf8 + seq_;
      assert wstr[..i + 1][..i] == wstr[..i];
      i := i + 1;
    }
    assert wstr[..i] == wstr;
  }

  /** utf8_to_wchar, on a byte array that ends with a 0. The result never outgrows what was allocated first. */
  method Utf8ToWchar(utf8: seq<Byte>) returns (wstr: seq<Code>)
    requires |utf8| > 0 && utf8[|utf8| - 1] == 0
    ensures wstr == Chars(utf8[..|utf8| - 1])
  {
    hide *;
    var blen := |utf8| - 1;
    var buf := new Code[blen + 1];
    var len, wlen := 0, 0;
    ghost var done: seq<Code> := [];
    assert done + Chars(utf8[..blen]) == Chars(utf8[..blen]) && utf8[0..blen] == utf8[..blen];
    while len < blen
      invariant 0 <= wlen == |done| <= len <= blen
      invariant forall t :: 0 <= t < wlen ==> buf[t] == done[t]
      invariant done + Chars(utf8[len..blen]) == Chars(utf8[..blen])
    {
      ghost var b := utf8[len..blen];
      var code, lseq := Utf8ToUcs(utf8, len);
      if code == 0 && utf8[len] != 0 {
        code := QUESTION;
      }
      CharsFrom(b);
      assert b[lseq..] == utf8[len + lseq..blen];
      assert done + ([code] + Chars(b[lseq..])) == (done + [code]) + Chars(b[lseq..]);
      buf[wlen] := code;
      done := done + [code];
      wlen := wlen + 1;
      len := len + lseq;
    }
    CharsFrom(utf8[len..blen]);
    wstr := buf[..wlen];
    assert wstr == done;
  }

  lemma CharsFrom(b: seq<Byte>)
    ensures b == [] ==> Chars(b) == []
    ensures b != [] ==>
      var (code, used) := Decode(b); Chars(b) == [if code == 0 && b[0] != 0 then QUESTION else code] + Chars(b[used..])
  {
  }

  lemma {:induction false} CharsOfEncoded(w: seq<Code>, rest: seq<Byte>)
    ensures Chars(EncodeAll(w) + rest) == w + Chars(rest)
    decreases |w|
  {
    hide Chars, Encode;
    if w == [] {
      assert EncodeAll(w) + rest == rest;
    } else {
      var last, front := w[|w| - 1], w[..|w| - 1];
      var e := Encode(last);
      CharsOfEncoded(front, e + rest);
      assert EncodeAll(w) + rest == EncodeAll(front) + (e + rest);
      CharsStep(last, rest);
      assert front + [last] == w;
    }
  }

  lemma CharsStep(c: Code, rest: seq<Byte>)
    ensures Chars(Encode(c) + rest) == [c] + Chars(rest)
  {
    hide Decode, Encode;
    RoundTrip(c, rest);
    ZeroByte(c);
    assert (Encode(c) + rest)[|Encode(c)|..] == rest;
  }

  lemma ZeroByte(c: Code)
    ensures c == 0 ==> Encode(c)[0] == 0
  {
  }

  /** utf8_to_wchar undoes wchar_to_utf8, whatever the 32-bit codes. */
  lemma WideRoundTrip(w: seq<Code>)
    ensures Chars(EncodeAll(w)) == w
  {
    CharsOfEncoded(w, []);
    assert EncodeAll(w) + [] == EncodeAll(w);
  }
}
