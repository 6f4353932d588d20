/** The two sides of the base64 code: ccclib/src/base64.cpp on the server, jt/jterminal/base64.java in the terminal. */
module Base64 {
  import opened Basics

  type Byte = bv8

  const PAD: Byte := 0x3d

  /** The longest binary string of the server. */
  const MAXBINLEN := 0x400_0000

  /** The alphabet, without the padding character. */
  function Letter(d: Byte): (c: Byte)
    requires d < 64
    ensures c != PAD
  {
    if d < 26 then 0x41 + d
    else if d < 52 then 0x61 + (d - 26)
    else if d < 62 then 0x30 + (d - 52)
    else if d == 62 then 0x2b
    else 0x2f
  }

  const CAPITALS := "ABCDEFGHIJKLMNOPQRSTUVWXYZ"
  const SMALLS := "abcdefghijklmnopqrstuvwxyz"

  /** The alphabet of section 4 of RFC 4648. */
  const ALPHABET := CAPITALS + SMALLS + "0123456789+/"

  /** Digit i is written as the i-th letter, and read back from it. */
  lemma AlphabetLetter(i: nat)
    requires i < 64
    ensures |ALPHABET| == 64 && Letter(i as Byte) as int == ALPHABET[i] as int
    ensures IsLetter(Letter(i as Byte)) && Value(Letter(i as Byte)) == i as Byte
  {
    LetterValue(i as Byte);
    LetterNumber(i);
    Alphabet(i);
    hide Letter, Value, IsLetter, ALPHABET, CAPITALS, SMALLS;
  }

  lemma Alphabet(i: nat)
    requires i < 64
    ensures |ALPHABET| == 64
    ensures ALPHABET[i] as int == if i < 26 then 65 + i else if i < 52 then 97 + (i - 26)
                                  else if i < 62 then 48 + (i - 52) else if i == 62 then 43 else 47
  {
    if i < 26 {
      assert CAPITALS[i] as int == 65 + i;
    } else if i < 52 {
      assert SMALLS[i - 26] as int == 97 + (i - 26);
    } else {
      assert "0123456789+/"[i - 52] as int == if i < 62 then 48 + (i - 52) else if i == 62 then 43 else 47;
    }
  }

  lemma LetterNumber(i: nat)
    requires i < 64
    ensures Letter(i as Byte) as int == if i < 26 then 65 + i else if i < 52 then 97 + (i - 26)
                                        else if i < 62 then 48 + (i - 52) else if i == 62 then 43 else 47
  {
  }

  predicate IsLetter(c: Byte) {
    0x41 <= c <= 0x5a || 0x61 <= c <= 0x7a || 0x30 <= c <= 0x39 || c == 0x2b || c == 0x2f
  }

  /** The entry of the decoding tables. */
  function Value(c: Byte): (d: Byte)
    requires IsLetter(c)
    ensures d < 64
  {
    if 0x41 <= c <= 0x5a then c - 0x41
    else if 0x61 <= c <= 0x7a then 26 + (c - 0x61)
    else if 0x30 <= c <= 0x39 then 52 + (c - 0x30)
    else if c == 0x2b then 62
    else 63
  }

  lemma LetterValue(d: Byte)
    requires d < 64
    ensures IsLetter(Letter(d)) && Value(Letter(d)) == d
  {
  }

  lemma PadIsForeign()
    ensures !IsLetter(PAD)
  {
  }

  // ----- encoding -----

  function ByteAt(data: seq<Byte>, i: nat): Byte { if i < |data| then data[i] else 0 }

  /** The digits of three bytes (section 4 of RFC 4648). */
  function D0(x: Byte): (d: Byte) ensures d < 64 { x >> 2 }
  function D1(x: Byte, y: Byte): (d: Byte) ensures d < 64 { ((x & 3) << 4) | (y >> 4) }
  function D2(y: Byte, z: Byte): (d: Byte) ensures d < 64 { ((y & 0xf) << 2) | (z >> 6) }
  function D3(z: Byte): (d: Byte) ensures d < 64 { z & 0x3f }

  /** The four characters for the group of bytes from 3 * m on, of which there may be only one or two. */
  function Group(data: seq<Byte>, m: nat): (g: seq<Byte>)
    ensures |g| == 4
  {
    var x, y, z := ByteAt(data, 3 * m), ByteAt(data, 3 * m + 1), ByteAt(data, 3 * m + 2);
    [Letter(D0(x)), Letter(D1(x, y)),
     if 3 * m + 1 < |data| then Letter(D2(y, z)) else PAD,
     if 3 * m + 2 < |data| then Letter(D3(z)) else PAD]
  }

  /** The first m groups. */
  function Groups(data: seq<Byte>, m: nat): (e: seq<Byte>)
    ensures |e| == 4 * m
  {
    if m == 0 then [] else Groups(data, m - 1) + Group(data, m - 1)
  }

  function Encoded(data: seq<Byte>): seq<Byte> { Groups(data, (|data| + 2) / 3) }

  /** The test vectors "foobar" and "fo" of section 10 of RFC 4648. */
  lemma TestVectors()
    ensures Encoded([0x66, 0x6f, 0x6f, 0x62, 0x61, 0x72]) == [0x5a, 0x6d, 0x39, 0x76, 0x59, 0x6d, 0x46, 0x79]
    ensures Encoded([0x66, 0x6f]) == [0x5a, 0x6d, 0x38, 0x3d]
  {
    var long: seq<Byte>, short: seq<Byte> := [0x66, 0x6f, 0x6f, 0x62, 0x61, 0x72], [0x66, 0x6f];
    assert Group(long, 0) == [0x5a, 0x6d, 0x39, 0x76] && Group(long, 1) == [0x59, 0x6d, 0x46, 0x79];
    assert Group(short, 0) == [0x5a, 0x6d, 0x38, 0x3d];
    hide Group;
    assert Groups(long, 0) == [] && Groups(short, 0) == [];
    assert Groups(long, 1) == [] + [0x5a, 0x6d, 0x39, 0x76];
    assert Groups(long, 2) == Groups(long, 1) + [0x59, 0x6d, 0x46, 0x79];
    assert Groups(short, 1) == [] + [0x5a, 0x6d, 0x38, 0x3d];
  }

  function Push8(val: bv32, x: Byte): bv32 { (val << 8) | x as bv32 }

  function Low6(val: bv32): (d: Byte)
    ensures d < 64
  {
    (val & 0x3f) as Byte
  }

  function Drop6(val: bv32): bv32 { val >> 6 }

  lemma Sextets(x: Byte, y: Byte, z: Byte)
    ensures var v := Push8(Push8(Push8(0, x), y), z);
            && Low6(v) == D3(z) && Low6(Drop6(v)) == D2(y, z)
            && Low6(Drop6(Drop6(v))) == D1(x, y) && Low6(Drop6(Drop6(Drop6(v)))) == D0(x)
  {
  }

  /** base64_encode of the server; None is the error for a string that is too long. */
  method Encode(bin: array<Byte>) returns (r: Option<array<Byte>>)
    ensures if bin.Length > MAXBINLEN then r == None else r.Some? && fresh(r.value) && r.value[..] == Encoded(bin[..])
  {
    if bin.Length > MAXBINLEN {
      return None;
    }
    var asc := EncodeAll(bin);
    r := Some(asc);
  }

  method EncodeAll(bin: array<Byte>) returns (asc: array<Byte>)
    ensures fresh(asc) && asc[..] == Encoded(bin[..])
  {
    hide *;
    var len := bin.Length;
    asc := new Byte[(len + 2) / 3 * 4];
    var i, index := 0, 0;
    Start(bin[..]);
    while i < len
      invariant index % 4 == 0 && i == index / 4 * 3 && i < len + 3 && index <= asc.Length
      invariant asc[..index] == Groups(bin[..], index / 4)
    {
      ghost var m := index / 4;
      RoomFor(len, m);
      var quad, trip := false, false;
      var val := Push8(0, bin[i]);
      var y, z: Byte := 0, 0;
      if i + 1 < len {
        y := bin[i + 1];
        trip := true;
      }
      val := Push8(val, y);
      if i + 2 < len {
        z := bin[i + 2];
        quad := true;
      }
      val := Push8(val, z);
      Sextets(bin[i], y, z);
      GroupIs(bin[..], m, bin[i], y, z);
      PutGroup(asc, index, val, trip, quad);
      OneMoreGroup(bin[..], m);
      i := i + 3;
      index := index + 4;
    }
    AllGroups(bin[..], index / 4);
    assert asc[..index] == asc[..];
  }

  /** The four characters of one group, the last first. */
  method PutGroup(asc: array<Byte>, index: nat, val0: bv32, trip: bool, quad: bool)
    requires index + 4 <= asc.Length
    modifies asc
    ensures asc[..index + 4] == old(asc[..index])
      + [Letter(Low6(Drop6(Drop6(Drop6(val0))))), Letter(Low6(Drop6(Drop6(val0)))),
         if trip then Letter(Low6(Drop6(val0))) else PAD, if quad then Letter(Low6(val0)) else PAD]
  {
    hide *;
    var val := val0;
    asc[index + 3] := if quad then Letter(Low6(val)) else PAD;
    val := Drop6(val);
    asc[index + 2] := if trip then Letter(Low6(val)) else PAD;
    val := Drop6(val);
    asc[index + 1] := Letter(Low6(val));
    val := Drop6(val);
    asc[index] := Letter(Low6(val));
  }

  lemma Start(data: seq<Byte>)
    ensures Groups(data, 0) == []
  {
  }

  lemma OneMoreGroup(data: seq<Byte>, m: nat)
    ensures Groups(data, m + 1) == Groups(data, m) + Group(data, m)
  {
  }

  lemma RoomFor(len: nat, m: nat)
    requires 3 * m < len
    ensures 4 * m + 4 <= (len + 2) / 3 * 4
  {
  }

  lemma GroupIs(data: seq<Byte>, m: nat, x: Byte, y: Byte, z: Byte)
    requires 3 * m < |data| && x == data[3 * m]
    requires (if 3 * m + 1 < |data| then y == data[3 * m + 1] else y == 0)
    requires (if 3 * m + 2 < |data| then z == data[3 * m + 2] else z == 0)
    ensures Group(data, m) == [Letter(D0(x)), Letter(D1(x, y)),
                               if 3 * m + 1 < |data| then Letter(D2(y, z)) else PAD,
                               if 3 * m + 2 < |data| then Letter(D3(z)) else PAD]
  {
  }

  lemma AllGroups(data: seq<Byte>, m: nat)
    requires |data| <= 3 * m < |data| + 3
    ensures Groups(data, m) == Encoded(data) && 4 * m == (|data| + 2) / 3 * 4
  {
  }

  // ----- the encoder of the terminal -----

  /** A byte is signed: an int made of it is sign extended, and >> keeps the sign. */
  function Extend(b: Byte): bv32 { if b & 0x80 == 0 then b as bv32 else 0xffff_ff00 | b as bv32 }

  function Asr(x: bv32, n: nat): bv32
    requires n <= 8
  {
    if x & 0x8000_0000 == 0 then x >> n else (x >> n) | (0xffff_ffff << (32 - n))
  }

  function ToByte(x: bv32): Byte { (x & 0xff) as Byte }

  /** (b & SIGN) == 0 ? (byte) (b >> n) : (byte) (b >> n ^ flip) */
  function Shifted(b: Byte, n: nat, flip: bv32): Byte
    requires n <= 8
  {
    if b & 0x80 == 0 then ToByte(Asr(Extend(b), n)) else ToByte(Asr(Extend(b), n) ^ flip)
  }

  /** The xor takes the copies of the sign away again. */
  lemma Unsigned(b: Byte)
    ensures Shifted(b, 2, 0xc0) == b >> 2 && Shifted(b, 4, 0xf0) == b >> 4 && Shifted(b, 6, 0xfc) == b >> 6
  {
  }

  lemma JavaDigits(b1: Byte, b2: Byte, b3: Byte)
    ensures Shifted(b1, 2, 0xc0) == D0(b1)
    ensures Shifted(b2, 4, 0xf0) | ((b1 & 3) << 4) == D1(b1, b2) && (b1 & 3) << 4 == D1(b1, 0)
    ensures ((b2 & 0xf) << 2) | Shifted(b3, 6, 0xfc) == D2(b2, b3) && (b2 & 0xf) << 2 == D2(b2, 0)
    ensures b3 & 0x3f == D3(b3)
  {
    Unsigned(b1);
    Unsigned(b2);
    Unsigned(b3);
    hide Shifted;
  }

  /** An int result, with the wrap-around. */
  function Int32(x: int): (r: int)
    ensures -0x8000_0000 <= r < 0x8000_0000 && (r - x) % 0x1_0000_0000 == 0 && (0 <= x < 0x8000_0000 ==> r == x)
  {
    var m := x % 0x1_0000_0000;
    if m < 0x8000_0000 then m else m - 0x1_0000_0000
  }

  /** / and %, which truncate. */
  function Quotient(x: int, y: int): int
    requires y > 0
  {
    if x >= 0 then x / y else -((-x) / y)
  }

  function Remainder(x: int, y: int): int
    requires y > 0
  {
    x - y * Quotient(x, y)
  }

  /** encode of the terminal: the same characters as base64_encode exactly if the array has fewer than 2^28 bytes.
      The number of bits of a longer one does not fit an int; then there is an exception, or a part is encoded. */
  method JavaEncode(binaryData: array<Byte>) returns (r: Option<array<Byte>>)
    requires binaryData.Length < 0x8000_0000
    ensures r.Some? ==> fresh(r.value)
    ensures r.Some? && r.value[..] == Encoded(binaryData[..]) <==> binaryData.Length < 0x1000_0000
    ensures var bits := Int32(binaryData.Length * 8);
            0 <= bits ==> bits / 8 <= binaryData.Length && r.Some? && r.value[..] == Encoded(binaryData[..bits / 8])
  {
    hide *;
    var lengthDataBits := Int32(binaryData.Length * 8);
    var fewerThan24bits := Remainder(lengthDataBits, 24);
    var numberTriplets := Quotient(lengthDataBits, 24);
    Sizes(binaryData.Length, lengthDataBits);
    LongerEncoded(binaryData[..], lengthDataBits / 8);
    var size := if fewerThan24bits != 0 then (numberTriplets + 1) * 4 else numberTriplets * 4;
    if size < 0 {
      return None;
    }
    var encodedData := new Byte[size];
    if lengthDataBits >= 0 {
      JavaGroups(binaryData, encodedData, numberTriplets, fewerThan24bits);
      assert binaryData.Length < 0x1000_0000 ==> binaryData[..lengthDataBits / 8] == binaryData[..];
    }
    r := Some(encodedData);
  }

  /** The number of bits is right below 2^28 bytes, and too small for any longer array. */
  lemma Sizes(len: nat, bits: int)
    requires len < 0x8000_0000 && bits == Int32(len * 8)
    ensures var few, n := Remainder(bits, 24), Quotient(bits, 24);
            && bits % 8 == 0 && (0 <= bits ==> bits / 8 <= len && 0 <= n && bits / 8 == 3 * n + few / 8 && few in {0, 8, 16})
            && (bits < 0 ==> n <= 0 && few !in {8, 16} && len > 5)
            && (len < 0x1000_0000 <==> bits == len * 8)
            && (len >= 0x1000_0000 && bits >= 0 ==> (bits / 8 + 2) / 3 < (len + 2) / 3)
  {
    var k := (len * 8 - bits) / 0x1_0000_0000;
    assert len * 8 == bits + k * 0x1_0000_0000;
  }

  /** More groups make a longer string. */
  lemma LongerEncoded(data: seq<Byte>, n: int)
    ensures |Encoded(data)| == (|data| + 2) / 3 * 4
    ensures 0 <= n <= |data| ==> |Encoded(data[..n])| == (n + 2) / 3 * 4
  {
  }

  /** The loop over the groups, and the one or two bytes left. */
  method JavaGroups(binaryData: array<Byte>, encodedData: array<Byte>, numberTriplets: nat, fewerThan24bits: int)
    requires fewerThan24bits in {0, 8, 16} && 3 * numberTriplets + fewerThan24bits / 8 <= binaryData.Length
    requires encodedData.Length == 4 * numberTriplets + (if fewerThan24bits != 0 then 4 else 0) && encodedData != binaryData
    modifies encodedData
    ensures encodedData[..] == Encoded(binaryData[..3 * numberTriplets + fewerThan24bits / 8])
  {
    hide *;
    ghost var data := binaryData[..3 * numberTriplets + fewerThan24bits / 8];
    Start(data);
    var i := 0;
    while i < numberTriplets
      invariant i <= numberTriplets && encodedData[..4 * i] == Groups(data, i)
    {
      var b1, b2, b3 := binaryData[i * 3], binaryData[i * 3 + 1], binaryData[i * 3 + 2];
      GroupIs(data, i, b1, b2, b3);
      OneMoreGroup(data, i);
      JavaDigits(b1, b2, b3);
      var k, l := b1 & 3, b2 & 0xf;
      var val1, val2, val3 := Shifted(b1, 2, 0xc0), Shifted(b2, 4, 0xf0), Shifted(b3, 6, 0xfc);
      Put(encodedData, i * 4, Letter(val1), Letter(val2 | (k << 4)), Letter((l << 2) | val3), Letter(b3 & 0x3f));
      i := i + 1;
    }
    if fewerThan24bits != 0 {
      JavaTail(binaryData, encodedData, i, fewerThan24bits, data);
      i := i + 1;
    }
    AllGroups(data, i);
    assert encodedData[..4 * i] == encodedData[..];
  }

  /** The last one or two bytes. */
  method JavaTail(binaryData: array<Byte>, encodedData: array<Byte>, i: nat, fewerThan24bits: int, ghost data: seq<Byte>)
    requires fewerThan24bits in {8, 16} && 3 * i + fewerThan24bits / 8 <= binaryData.Length
    requires encodedData.Length >= 4 * i + 4 && encodedData != binaryData
    requires data == binaryData[..3 * i + fewerThan24bits / 8] && encodedData[..4 * i] == Groups(data, i)
    modifies encodedData
    ensures encodedData[..4 * i + 4] == Groups(data, i + 1)
  {
    hide *;
    OneMoreGroup(data, i);
    var b1 := binaryData[i * 3];
    var k := b1 & 3;
    if fewerThan24bits == 8 {
      GroupIs(data, i, b1, 0, 0);
      JavaDigits(b1, 0, 0);
      Put(encodedData, i * 4, Letter(Shifted(b1, 2, 0xc0)), Letter(k << 4), PAD, PAD);
    } else {
      var b2 := binaryData[i * 3 + 1];
      GroupIs(data, i, b1, b2, 0);
      JavaDigits(b1, b2, 0);
      var l := b2 & 0xf;
      Put(encodedData, i * 4, Letter(Shifted(b1, 2, 0xc0)), Letter(Shifted(b2, 4, 0xf0) | (k << 4)), Letter(l << 2), PAD);
    }
  }

  method Put(a: array<Byte>, at: nat, c0: Byte, c1: Byte, c2: Byte, c3: Byte)
    requires at + 4 <= a.Length
    modifies a
    ensures a[..at + 4] == old(a[..at]) + [c0, c1, c2, c3]
  {
    a[at], a[at + 1], a[at + 2], a[at + 3] := c0, c1, c2, c3;
  }

  // ----- the decoder of the server -----

  /** The bytes written so far, the accumulator, and the number of its low bits not used up. */
  datatype Bits = Bits(out: seq<Byte>, accum: bv32, shift: nat)

  function Push6(accum: bv32, d: Byte): bv32 { (accum << 6) | d as bv32 }

  function Low8(accum: bv32, shift: nat): Byte
    requires shift <= 8
  {
    ((accum >> shift) & 0xff) as Byte
  }

  function Feed(s: Bits, d: Byte): (r: Bits)
    requires s.shift < 8
    ensures r.shift < 8
  {
    var accum := Push6(s.accum, d);
    if s.shift + 6 >= 8 then Bits(s.out + [Low8(accum, s.shift - 2)], accum, s.shift - 2)
    else Bits(s.out, accum, s.shift + 6)
  }

  /** All the characters, one after the other; what is not a letter is skipped. */
  function Run(chars: seq<Byte>): (r: Bits)
    ensures r.shift < 8
  {
    if chars == [] then Bits([], 0, 0)
    else
      var front, c := Run(chars[..|chars| - 1]), chars[|chars| - 1];
      if IsLetter(c) then Feed(front, Value(c)) else front
  }

  function Letters(chars: seq<Byte>): (r: seq<Byte>)
    ensures |r| <= |chars|
  {
    if chars == [] then []
    else
      var front, c := Letters(chars[..|chars| - 1]), chars[|chars| - 1];
      if IsLetter(c) then front + [c] else front
  }

  /** What the decoder computes first. */
  function OutputLength(tlen: nat): nat {
    tlen / 4 * 3 + if tlen % 4 == 3 then 2 else if tlen % 4 == 2 then 1 else 0
  }

  /** The decoder writes exactly as many bytes as it computed first, whatever the input. */
  lemma {:induction false} RunFills(chars: seq<Byte>)
    ensures |Run(chars).out| == OutputLength(|Letters(chars)|) && Run(chars).shift == 6 * |Letters(chars)| % 8
    decreases |chars|
  {
    hide *;
    Nothing();
    Sized(0);
    if chars != [] {
      var front, c := chars[..|chars| - 1], chars[|chars| - 1];
      RunFills(front);
      assert chars == front + [c];
      More(front, c);
      if IsLetter(c) {
        FeedIs(Run(front), Value(c));
        OneMoreLetter(|Letters(front)|);
      }
    }
  }

  lemma OneMoreLetter(n: nat)
    ensures OutputLength(n + 1) == OutputLength(n) + if 6 * n % 8 + 6 >= 8 then 1 else 0
    ensures 6 * (n + 1) % 8 == if 6 * n % 8 + 6 >= 8 then 6 * n % 8 - 2 else 6 * n % 8 + 6
  {
    var q, r := n / 4, n % 4;
    Remainders(q, r);
    if r < 3 { Remainders(q, r + 1); } else { Remainders(q + 1, 0); }
  }

  lemma Remainders(q: nat, r: nat)
    requires r < 4
    ensures var n := 4 * q + r; n / 4 == q && n % 4 == r && 6 * n % 8 == if r == 0 then 0 else 8 - 2 * r
    ensures OutputLength(4 * q + r) == 3 * q + if r == 3 then 2 else if r == 2 then 1 else 0
  {
  }

  /** Foreign characters, wherever they stand, change nothing. */
  lemma {:induction false} ForeignIgnored(chars: seq<Byte>)
    ensures Run(Letters(chars)) == Run(chars)
    decreases |chars|
  {
    hide Feed, Value, IsLetter;
    if chars != [] {
      var front, c := chars[..|chars| - 1], chars[|chars| - 1];
      ForeignIgnored(front);
      if IsLetter(c) {
        assert (Letters(front) + [c])[..|Letters(front)|] == Letters(front);
      }
    }
  }

  /** base64_decode of the server, with the same limit. */
  method Decode(asc: array<Byte>) returns (r: Option<array<Byte>>)
    ensures if asc.Length > MAXBINLEN then r == None else r.Some? && fresh(r.value) && r.value[..] == Run(asc[..]).out
  {
    if asc.Length > MAXBINLEN {
      return None;
    }
    var bin := DecodeAll(asc);
    r := Some(bin);
  }

  /** The counting of the letters, and the decoding. */
  method DecodeAll(asc: array<Byte>) returns (bin: array<Byte>)
    ensures fresh(bin) && bin[..] == Run(asc[..]).out
  {
    hide *;
    var alen := asc.Length;
    var tlen := alen;
    var ix := 0;
    Nothing();
    assert asc[..0] == [];
    while ix < alen
      invariant ix <= alen && tlen == alen - ix + |Letters(asc[..ix])|
    {
      More(asc[..ix], asc[ix]);
      assert asc[..ix + 1] == asc[..ix] + [asc[ix]];
      if !IsLetter(asc[ix]) {
        tlen := tlen - 1;
      }
      ix := ix + 1;
    }
    var blen := tlen / 4 * 3;
    if tlen % 4 == 3 { blen := blen + 2; }
    if tlen % 4 == 2 { blen := blen + 1; }
    assert asc[..alen] == asc[..];
    Sized(tlen);
    RunFills(asc[..]);
    bin := new Byte[blen];
    var shift, index: nat := 0, 0;
    var accum: bv32 := 0;
    ix := 0;
    while ix < alen
      invariant ix <= alen && index <= blen && shift < 8
      invariant Run(asc[..ix]) == Bits(bin[..index], accum, shift)
    {
      ghost var s := Run(asc[..ix]);
      More(asc[..ix], asc[ix]);
      assert asc[..ix + 1] == asc[..ix] + [asc[ix]];
      if IsLetter(asc[ix]) {
        var value := Value(asc[ix]);
        FeedIs(s, value);
        accum := Push6(accum, value);
        shift := shift + 6;
        if shift >= 8 {
          RunGrows(asc[..], ix + 1);
          shift := shift - 8;
          bin[index] := Low8(accum, shift);
          index := index + 1;
        }
        assert Bits(bin[..index], accum, shift) == Feed(s, value);
      }
      ix := ix + 1;
    }
    assert asc[..ix] == asc[..];
    assert bin[..index] == bin[..];
  }

  lemma Nothing()
    ensures Run([]) == Bits([], 0, 0) && Letters([]) == []
  {
  }

  lemma More(chars: seq<Byte>, c: Byte)
    ensures Run(chars).shift < 8
    ensures Run(chars + [c]) == if IsLetter(c) then Feed(Run(chars), Value(c)) else Run(chars)
    ensures Letters(chars + [c]) == if IsLetter(c) then Letters(chars) + [c] else Letters(chars)
  {
    hide Feed, IsLetter, Value;
    assert (chars + [c])[..|chars|] == chars;
  }

  lemma FeedIs(s: Bits, d: Byte)
    requires s.shift < 8
    ensures Feed(s, d) == if s.shift + 6 >= 8 then Bits(s.out + [Low8(Push6(s.accum, d), s.shift - 2)], Push6(s.accum, d), s.shift - 2)
                          else Bits(s.out, Push6(s.accum, d), s.shift + 6)
  {
  }

  lemma Sized(tlen: nat)
    ensures OutputLength(tlen) == tlen / 4 * 3 + if tlen % 4 == 3 then 2 else if tlen % 4 == 2 then 1 else 0
  {
  }

  lemma {:induction false} RunGrows(chars: seq<Byte>, n: nat)
    requires n <= |chars|
    ensures Run(chars[..n]).out <= Run(chars).out
    decreases |chars| - n
  {
    hide Feed, IsLetter, Value;
    if n == |chars| {
      assert chars[..n] == chars;
    } else {
      RunGrows(chars, n + 1);
      assert chars[..n + 1] == chars[..n] + [chars[n]];
      More(chars[..n], chars[n]);
      if IsLetter(chars[n]) { FeedIs(Run(chars[..n]), Value(chars[n])); }
    }
  }

  // ----- round trip -----

  /** The bytes that four digits hold. */
  function B0(d0: Byte, d1: Byte): Byte { (d0 << 2) | (d1 >> 4) }
  function B1(d1: Byte, d2: Byte): Byte { ((d1 & 0xf) << 4) | ((d2 >> 2) & 0xf) }
  function B2(d2: Byte, d3: Byte): Byte { (d2 << 6) | d3 }

  lemma BytesReadBack(x: Byte, y: Byte, z: Byte)
    ensures B0(D0(x), D1(x, y)) == x && B1(D1(x, y), D2(y, z)) == y && B2(D2(y, z), D3(z)) == z
  {
  }

  /** What lies above the unused bits of the accumulator, left over from earlier digits, does not matter. */
  lemma AccumHolds(a: bv32, d0: Byte, d1: Byte, d2: Byte, d3: Byte)
    requires d0 < 64 && d1 < 64 && d2 < 64 && d3 < 64
    ensures Low8(Push6(Push6(a, d0), d1), 4) == B0(d0, d1)
    ensures Low8(Push6(Push6(a, d1), d2), 2) == B1(d1, d2)
    ensures Low8(Push6(Push6(a, d2), d3), 0) == B2(d2, d3)
  {
  }

  /** A run that stands between two groups, and reads on. */
  lemma ReadTwo(chars: seq<Byte>, c0: Byte, c1: Byte)
    requires Run(chars).shift == 0 && IsLetter(c0) && IsLetter(c1)
    ensures var r := Run(chars + [c0, c1]);
            r.out == Run(chars).out + [B0(Value(c0), Value(c1))] && r.shift == 4 && exists a :: r.accum == Push6(a, Value(c1))
  {
    hide *;
    var s := Run(chars);
    More(chars, c0);
    More(chars + [c0], c1);
    assert chars + [c0, c1] == (chars + [c0]) + [c1];
    FeedIs(s, Value(c0));
    FeedIs(Feed(s, Value(c0)), Value(c1));
    AccumHolds(s.accum, Value(c0), Value(c1), 0, 0);
  }

  lemma ReadThree(chars: seq<Byte>, c0: Byte, c1: Byte, c2: Byte)
    requires Run(chars).shift == 0 && IsLetter(c0) && IsLetter(c1) && IsLetter(c2)
    ensures var r := Run(chars + [c0, c1, c2]);
            r.out == Run(chars).out + [B0(Value(c0), Value(c1)), B1(Value(c1), Value(c2))] && r.shift == 2
            && exists a :: r.accum == Push6(a, Value(c2))
  {
    hide *;
    ReadTwo(chars, c0, c1);
    var s := Run(chars + [c0, c1]);
    var a :| s.accum == Push6(a, Value(c1));
    More(chars + [c0, c1], c2);
    assert chars + [c0, c1, c2] == (chars + [c0, c1]) + [c2];
    FeedIs(s, Value(c2));
    AccumHolds(a, 0, Value(c1), Value(c2), 0);
  }

  lemma ReadFour(chars: seq<Byte>, c0: Byte, c1: Byte, c2: Byte, c3: Byte)
    requires Run(chars).shift == 0 && IsLetter(c0) && IsLetter(c1) && IsLetter(c2) && IsLetter(c3)
    ensures var r := Run(chars + [c0, c1, c2, c3]);
            r.out == Run(chars).out + [B0(Value(c0), Value(c1)), B1(Value(c1), Value(c2)), B2(Value(c2), Value(c3))] && r.shift == 0
  {
    hide *;
    ReadThree(chars, c0, c1, c2);
    var s := Run(chars + [c0, c1, c2]);
    var a :| s.accum == Push6(a, Value(c2));
    More(chars + [c0, c1, c2], c3);
    assert chars + [c0, c1, c2, c3] == (chars + [c0, c1, c2]) + [c3];
    FeedIs(s, Value(c3));
    AccumHolds(a, 0, 0, Value(c2), Value(c3));
  }

  lemma {:induction false} GroupsDecode(data: seq<Byte>, m: nat)
    requires 3 * m <= |data|
    ensures Run(Groups(data, m)).out == data[..3 * m] && Run(Groups(data, m)).shift == 0
    decreases m
  {
    hide *;
    Nothing();
    Start(data);
    if m > 0 {
      GroupsDecode(data, m - 1);
      OneMoreGroup(data, m - 1);
      var x, y, z := data[3 * m - 3], data[3 * m - 2], data[3 * m - 1];
      GroupIs(data, m - 1, x, y, z);
      DigitsValue(x, y, z);
      ReadFour(Groups(data, m - 1), Letter(D0(x)), Letter(D1(x, y)), Letter(D2(y, z)), Letter(D3(z)));
      BytesReadBack(x, y, z);
      assert data[..3 * m] == data[..3 * (m - 1)] + [x, y, z];
    }
  }

  lemma DigitsValue(x: Byte, y: Byte, z: Byte)
    ensures IsLetter(Letter(D0(x))) && Value(Letter(D0(x))) == D0(x)
    ensures IsLetter(Letter(D1(x, y))) && Value(Letter(D1(x, y))) == D1(x, y)
    ensures IsLetter(Letter(D2(y, z))) && Value(Letter(D2(y, z))) == D2(y, z)
    ensures IsLetter(Letter(D3(z))) && Value(Letter(D3(z))) == D3(z)
  {
    hide *;
    LetterValue(D0(x));
    LetterValue(D1(x, y));
    LetterValue(D2(y, z));
    LetterValue(D3(z));
  }

  lemma LastOne(data: seq<Byte>, m: nat)
    requires |data| == 3 * m + 1
    ensures Run(Encoded(data)).out == data
  {
    hide *;
    GroupsDecode(data, m);
    AllGroups(data, m + 1);
    OneMoreGroup(data, m);
    var e, x := Groups(data, m), data[3 * m];
    GroupIs(data, m, x, 0, 0);
    DigitsValue(x, 0, 0);
    BytesReadBack(x, 0, 0);
    var c0, c1 := Letter(D0(x)), Letter(D1(x, 0));
    ReadTwo(e, c0, c1);
    PadIsForeign();
    More(e + [c0, c1], PAD);
    More(e + [c0, c1] + [PAD], PAD);
    assert e + [c0, c1, PAD, PAD] == e + [c0, c1] + [PAD] + [PAD];
    assert data == data[..3 * m] + [x];
  }

  lemma LastTwo(data: seq<Byte>, m: nat)
    requires |data| == 3 * m + 2
    ensures Run(Encoded(data)).out == data
  {
    hide *;
    GroupsDecode(data, m);
    AllGroups(data, m + 1);
    OneMoreGroup(data, m);
    var e, x, y := Groups(data, m), data[3 * m], data[3 * m + 1];
    GroupIs(data, m, x, y, 0);
    DigitsValue(x, y, 0);
    BytesReadBack(x, y, 0);
    var c0, c1, c2 := Letter(D0(x)), Letter(D1(x, y)), Letter(D2(y, 0));
    ReadThree(e, c0, c1, c2);
    PadIsForeign();
    More(e + [c0, c1, c2], PAD);
    assert e + [c0, c1, c2, PAD] == e + [c0, c1, c2] + [PAD];
    assert data == data[..3 * m] + [x, y];
  }

  /** base64_decode gives back what either encoder was given, for every byte string. */
  lemma RoundTrip(data: seq<Byte>)
    ensures Run(Encoded(data)).out == data
  {
    hide *;
    var m := |data| / 3;
    if |data| % 3 == 0 {
      GroupsDecode(data, m);
      AllGroups(data, m);
      assert data[..3 * m] == data;
    } else if |data| % 3 == 1 {
      LastOne(data, m);
    } else {
      LastTwo(data, m);
    }
  }

  // ----- the decoder of the terminal -----

  /** Four letters at a time, of which only the last one or two may be padding. */
  ghost predicate Canonical(c: seq<Byte>) {
    && |c| % 4 == 0
    && (forall i :: 0 <= i < |c| ==> IsLetter(c[i]) || (c[i] == PAD && i >= |c| - 2))
    && (|c| > 0 && c[|c| - 2] == PAD ==> c[|c| - 1] == PAD)
  }

  /** The padding at the end. */
  ghost function Pads(c: seq<Byte>): nat {
    if |c| < 4 then 0 else if c[|c| - 2] == PAD then 2 else if c[|c| - 1] == PAD then 1 else 0
  }

  /** The length without the padding at the end. */
  function Unpadded(c: seq<Byte>): (b: nat)
    ensures b <= |c| && (b > 0 ==> c[b - 1] != PAD) && forall j :: b <= j < |c| ==> c[j] == PAD
  {
    if c == [] then 0 else if c[|c| - 1] != PAD then |c| else Unpadded(c[..|c| - 1])
  }

  /** The strings on which the two decoders agree: nothing but padding, or letters only, with the last of the whole
      quadruples padded by at most two characters, and nothing but padding behind it. */
  ghost predicate Agrees(c: seq<Byte>) {
    var b, q := Unpadded(c), |c| / 4;
    b == 0 || ((forall i :: 0 <= i < b ==> IsLetter(c[i])) && 4 * q - 2 <= b <= 4 * q)
  }

  /** The entry of the terminal's table, -1 for a foreign character. A byte from 0x80 on is a negative index. */
  function Entry(c: Byte): Byte
    requires c < 0x80
  {
    if IsLetter(c) then Value(c) else 0xff
  }

  /** The bytes as decode computes them, with the entries extended to ints. */
  function J0(b1: Byte, b2: Byte): Byte { ToByte((Extend(b1) << 2) | Asr(Extend(b2), 4)) }
  function J1(b2: Byte, b3: Byte): Byte { ToByte(((Extend(b2) & 0xf) << 4) | (Asr(Extend(b3), 2) & 0xf)) }
  function J2(b3: Byte, b4: Byte): Byte { ToByte((Extend(b3) << 6) | Extend(b4)) }

  lemma JavaBytes(d1: Byte, d2: Byte, d3: Byte, d4: Byte)
    requires d1 < 64 && d2 < 64 && d3 < 64 && d4 < 64
    ensures J0(d1, d2) == B0(d1, d2) && J1(d2, d3) == B1(d2, d3) && J2(d3, d4) == B2(d3, d4)
  {
  }

  lemma EntryIs(c: Byte)
    requires IsLetter(c)
    ensures c < 0x80 && Entry(c) == Value(c) < 64
  {
  }

  lemma {:induction false} PaddingIgnored(c: seq<Byte>, b: nat)
    requires b <= |c| && forall j :: b <= j < |c| ==> c[j] == PAD
    ensures Run(c) == Run(c[..b]) && Letters(c) == Letters(c[..b])
    decreases |c|
  {
    hide *;
    if b == |c| {
      assert c[..b] == c;
    } else {
      var front := c[..|c| - 1];
      PaddingIgnored(front, b);
      PadIsForeign();
      More(front, PAD);
      assert c == front + [PAD] && front[..b] == c[..b];
    }
  }

  lemma {:induction false} LettersCount(c: seq<Byte>)
    ensures |Letters(c)| == |c| <==> forall i :: 0 <= i < |c| ==> IsLetter(c[i])
    decreases |c|
  {
    hide *;
    if c == [] {
      Nothing();
    } else {
      var front := c[..|c| - 1];
      LettersCount(front);
      More(front, c[|c| - 1]);
      assert c == front + [c[|c| - 1]];
      AtMost(front);
    }
  }

  lemma AtMost(c: seq<Byte>)
    ensures |Letters(c)| <= |c|
  {
  }

  lemma AgreesIs(c: seq<Byte>)
    ensures var b, q := Unpadded(c), |c| / 4;
            Agrees(c) <==> b == 0 || ((forall i :: 0 <= i < b ==> IsLetter(c[i])) && 4 * q - 2 <= b <= 4 * q)
  {
  }

  /** What the decoder of the server makes of a string, in terms of its length without padding. */
  lemma ServerLength(c: seq<Byte>)
    ensures var b, t := Unpadded(c), |Letters(c)|;
            && |Run(c).out| == OutputLength(t) && t <= b
            && (t == b <==> forall i :: 0 <= i < b ==> IsLetter(c[i]))
  {
    hide *;
    var b := Unpadded(c);
    PaddingIgnored(c, b);
    RunFills(c);
    LettersCount(c[..b]);
    AtMost(c[..b]);
  }

  /** If the lengths are the same although the condition does not hold, the last quadruple has no room. */
  lemma LengthsDiffer(c: seq<Byte>)
    requires !Agrees(c)
    ensures var b, q := Unpadded(c), |c| / 4; b > 0 && (q > 0 ==> 3 * q - 3 < b - q) ==> b - q != |Run(c).out|
  {
    hide *;
    AgreesIs(c);
    ServerLength(c);
    Sized(|Letters(c)|);
  }

  /** decode of the terminal; None stands for an exception. It makes what the decoder of the server makes exactly on the
      strings described by Agrees. */
  method JavaDecode(base64Data: array<Byte>) returns (r: Option<array<Byte>>)
    ensures r.Some? && r.value[..] == Run(base64Data[..]).out <==> Agrees(base64Data[..])
    ensures r.Some? ==>
      var b := Unpadded(base64Data[..]); fresh(r.value) && r.value.Length == if b == 0 then 0 else b - base64Data.Length / 4
  {
    hide *;
    ghost var c := base64Data[..];
    Nothing();
    AgreesIs(c);
    PaddingIgnored(c, Unpadded(c));
    assert c[..0] == [];
    if base64Data.Length == 0 {
      var none := new Byte[0];
      return Some(none);
    }
    var numberQuadruple := base64Data.Length / 4;
    var lastData := base64Data.Length;
    while base64Data[lastData - 1] == PAD
      invariant Unpadded(c) <= lastData <= |c| && lastData > 0
      decreases lastData
    {
      lastData := lastData - 1;
      if lastData == 0 {
        var none := new Byte[0];
        return Some(none);
      }
    }
    if lastData < numberQuadruple {
      ServerLength(c);
      return None;
    }
    var decodedData := new Byte[lastData - numberQuadruple];
    var ok := Quadruples(base64Data, decodedData, numberQuadruple, c);
    if !ok {
      return None;
    }
    if !Agrees(c) { LengthsDiffer(c); }
    r := Some(decodedData);
  }

  /** The whole quadruples, one after the other; the characters behind them are not looked at. */
  method Quadruples(data: array<Byte>, decoded: array<Byte>, numberQuadruple: nat, ghost c: seq<Byte>) returns (ok: bool)
    requires data[..] == c && data != decoded && numberQuadruple == data.Length / 4
    modifies decoded
    ensures ok && numberQuadruple > 0 ==> 3 * numberQuadruple - 3 < decoded.Length
    ensures Agrees(c) && 0 < Unpadded(c) == decoded.Length + numberQuadruple ==> ok && decoded[..] == Run(c).out
  {
    hide *;
    ghost var d := c[..4 * numberQuadruple];
    ghost var good := Agrees(c) && 0 < Unpadded(c) == decoded.Length + numberQuadruple;
    if good { AgreesCanonical(c); }
    Nothing();
    assert d[..0] == [] && decoded[..0] == [];
    var i := 0;
    ok := true;
    while i < numberQuadruple && ok
      invariant i <= numberQuadruple && (good ==> ok) && (ok && i > 0 ==> 3 * i - 3 < decoded.Length)
      invariant good && i < numberQuadruple ==>
        decoded.Length >= 3 * i && decoded[..3 * i] == Run(d[..4 * i]).out && Run(d[..4 * i]).shift == 0
      invariant good && i == numberQuadruple ==> decoded[..] == Run(d).out
    {
      ok := Quadruple(data, decoded, i, d, good);
      i := i + 1;
    }
  }

  lemma AgreesCanonical(c: seq<Byte>)
    requires Agrees(c) && Unpadded(c) > 0
    ensures var b, q := Unpadded(c), |c| / 4; var d := c[..4 * q];
            q > 0 && Canonical(d) && |d| == 4 * q && Pads(d) == 4 * q - b && Run(d).out == Run(c).out
  {
    hide *;
    var b, q := Unpadded(c), |c| / 4;
    AgreesIs(c);
    PaddingIgnored(c, b);
    PaddingIgnored(c[..4 * q], b);
    assert c[..4 * q][..b] == c[..b];
    CutCanonical(c[..4 * q], q, b);
  }

  lemma CutCanonical(d: seq<Byte>, q: nat, b: nat)
    requires |d| == 4 * q && 0 < b && 4 * q - 2 <= b <= 4 * q
    requires (forall i :: 0 <= i < b ==> IsLetter(d[i])) && forall i :: b <= i < |d| ==> d[i] == PAD
    ensures Canonical(d) && Pads(d) == 4 * q - b
  {
    PadIsForeign();
    hide IsLetter;
  }

  /** One turn of the loop: three bytes, or fewer if the quadruple is padded. The table and the arrays are indexed as they
      come; what has been written before a bad index is lost with the exception. */
  method Quadruple(data: array<Byte>, decoded: array<Byte>, i: nat, ghost c: seq<Byte>, ghost good: bool) returns (ok: bool)
    requires data.Length >= |c| && data[..|c|] == c && data != decoded && 4 * i + 4 <= |c|
    requires good ==> Canonical(c) && decoded.Length == 3 * (|c| / 4) - Pads(c) && decoded.Length >= 3 * i
    requires good ==> decoded[..3 * i] == Run(c[..4 * i]).out && Run(c[..4 * i]).shift == 0
    modifies decoded
    ensures ok ==> 3 * i < decoded.Length
    ensures good ==> ok
    ensures good && 4 * i + 4 < |c| ==>
      decoded.Length >= 3 * i + 3 && decoded[..3 * i + 3] == Run(c[..4 * i + 4]).out && Run(c[..4 * i + 4]).shift == 0
    ensures good && 4 * i + 4 == |c| ==> decoded[..] == Run(c).out
  {
    hide *;
    var at, to := 4 * i, 3 * i;
    ghost var was := decoded[..];
    var c0, c1, marker0, marker1 := data[at], data[at + 1], data[at + 2], data[at + 3];
    assert c[at] == c0 && c[at + 1] == c1 && c[at + 2] == marker0 && c[at + 3] == marker1;
    if good { GoodEntries(c, i); }
    if c0 >= 0x80 || c1 >= 0x80 {
      return false;
    }
    var b1, b2 := Entry(c0), Entry(c1);
    ok := false;
    if marker0 != PAD && marker1 != PAD {
      if marker0 < 0x80 && marker1 < 0x80 && to + 2 < decoded.Length {
        var b3, b4 := Entry(marker0), Entry(marker1);
        decoded[to], decoded[to + 1], decoded[to + 2] := J0(b1, b2), J1(b2, b3), J2(b3, b4);
        ok := true;
      }
    } else if marker0 == PAD {
      if to < decoded.Length {
        decoded[to] := J0(b1, b2);
        ok := true;
      }
    } else if marker0 < 0x80 && to + 1 < decoded.Length {
      var b3 := Entry(marker0);
      decoded[to], decoded[to + 1] := J0(b1, b2), J1(b2, b3);
      ok := true;
    }
    if good {
      QuadrupleDone(c, i, was, decoded[..]);
    }
  }

  /** The bytes of the quadruple have been written behind those of the ones before. */
  lemma QuadrupleDone(c: seq<Byte>, i: nat, was: seq<Byte>, now: seq<Byte>)
    requires Canonical(c) && 4 * i + 4 <= |c| && |was| == |now| == 3 * (|c| / 4) - Pads(c) && 3 * i + |Bytes(c, i)| <= |now|
    requires was[..3 * i] == Run(c[..4 * i]).out && Run(c[..4 * i]).shift == 0
    requires now[..3 * i] == was[..3 * i] && now[3 * i..3 * i + |Bytes(c, i)|] == Bytes(c, i)
    ensures if 4 * i + 4 < |c| then |now| >= 3 * i + 3 && now[..3 * i + 3] == Run(c[..4 * i + 4]).out && Run(c[..4 * i + 4]).shift == 0
            else now == Run(c).out
  {
    hide *;
    GoodEntries(c, i);
    QuadrupleRun(c, i);
    var n := 3 * i + |Bytes(c, i)|;
    assert now[..n] == now[..3 * i] + now[3 * i..n];
    if 4 * i + 4 == |c| { assert c[..4 * i + 4] == c && now[..n] == now; }
  }

  /** The bytes that quadruple i holds. */
  ghost function Bytes(c: seq<Byte>, i: nat): (r: seq<Byte>)
    requires Canonical(c) && 4 * i + 4 <= |c|
  {
    CanonicalAt(c, i);
    var d0, d1 := Value(c[4 * i]), Value(c[4 * i + 1]);
    if c[4 * i + 2] == PAD then [B0(d0, d1)]
    else if c[4 * i + 3] == PAD then [B0(d0, d1), B1(d1, Value(c[4 * i + 2]))]
    else [B0(d0, d1), B1(d1, Value(c[4 * i + 2])), B2(Value(c[4 * i + 2]), Value(c[4 * i + 3]))]
  }

  /** On a good quadruple all indices are in range, and the entries give its bytes. */
  lemma GoodEntries(c: seq<Byte>, i: nat)
    requires Canonical(c) && 4 * i + 4 <= |c|
    ensures var c0, c1, c2, c3 := c[4 * i], c[4 * i + 1], c[4 * i + 2], c[4 * i + 3];
            && c0 < 0x80 && c1 < 0x80 && c2 < 0x80 && c3 < 0x80
            && |Bytes(c, i)| == (if c2 == PAD then 1 else if c3 == PAD then 2 else 3)
            && Bytes(c, i)[0] == J0(Entry(c0), Entry(c1))
            && (c2 != PAD ==> Bytes(c, i)[1] == J1(Entry(c1), Entry(c2)))
            && (c2 != PAD && c3 != PAD ==> Bytes(c, i)[2] == J2(Entry(c2), Entry(c3)))
            && if 4 * i + 4 < |c| then c2 != PAD && c3 != PAD && 3 * (|c| / 4) - Pads(c) >= 3 * i + 3
               else 3 * (|c| / 4) - Pads(c) == 3 * i + |Bytes(c, i)|
  {
    CanonicalAt(c, i);
    var c0, c1, c2, c3 := c[4 * i], c[4 * i + 1], c[4 * i + 2], c[4 * i + 3];
    EntryIs(c0);
    EntryIs(c1);
    if c2 != PAD { EntryIs(c2); } else { PadIsSmall(); }
    if c3 != PAD { EntryIs(c3); } else { PadIsSmall(); }
    JavaBytes(Value(c0), Value(c1), if c2 != PAD then Value(c2) else 0, if c3 != PAD then Value(c3) else 0);
    hide J0, J1, J2, B0, B1, B2, Entry, Value, IsLetter, Canonical, Pads;
  }

  lemma PadIsSmall()
    ensures PAD < 0x80
  {
  }

  lemma BytesAre(c: seq<Byte>, i: nat)
    requires Canonical(c) && 4 * i + 4 <= |c|
    ensures var c0, c1, c2, c3 := c[4 * i], c[4 * i + 1], c[4 * i + 2], c[4 * i + 3];
            && IsLetter(c0) && IsLetter(c1) && (c2 == PAD || IsLetter(c2)) && (c3 == PAD || IsLetter(c3))
            && (c2 == PAD ==> c3 == PAD && Bytes(c, i) == [B0(Value(c0), Value(c1))])
            && (c2 != PAD && c3 == PAD ==> Bytes(c, i) == [B0(Value(c0), Value(c1)), B1(Value(c1), Value(c2))])
            && (c2 != PAD && c3 != PAD ==>
                  Bytes(c, i) == [B0(Value(c0), Value(c1)), B1(Value(c1), Value(c2)), B2(Value(c2), Value(c3))])
            && (4 * i + 4 < |c| ==> c2 != PAD && c3 != PAD)
  {
    CanonicalAt(c, i);
    hide Value, IsLetter, B0, B1, B2;
  }

  lemma QuadrupleRun(c: seq<Byte>, i: nat)
    requires Canonical(c) && 4 * i + 4 <= |c| && Run(c[..4 * i]).shift == 0
    ensures Run(c[..4 * i + 4]).out == Run(c[..4 * i]).out + Bytes(c, i)
    ensures 4 * i + 4 < |c| ==> Run(c[..4 * i + 4]).shift == 0
  {
    hide *;
    BytesAre(c, i);
    PadIsForeign();
    var c0, c1, c2, c3 := c[4 * i], c[4 * i + 1], c[4 * i + 2], c[4 * i + 3];
    var front := c[..4 * i];
    assert c[..4 * i + 4] == front + [c0, c1, c2, c3];
    if c2 == PAD {
      ReadTwo(front, c0, c1);
      More(front + [c0, c1], PAD);
      More(front + [c0, c1] + [PAD], PAD);
      assert front + [c0, c1, PAD, PAD] == front + [c0, c1] + [PAD] + [PAD];
    } else if c3 == PAD {
      ReadThree(front, c0, c1, c2);
      More(front + [c0, c1, c2], PAD);
      assert front + [c0, c1, c2, PAD] == front + [c0, c1, c2] + [PAD];
    } else {
      ReadFour(front, c0, c1, c2, c3);
    }
  }

  /** Behind a blank, the server reads "QUJD" as "ABC". */
  lemma BlankSkipped()
    ensures Run([0x20, 0x51, 0x55, 0x4a, 0x44]).out == [0x41, 0x42, 0x43]
  {
    Nothing();
    More([], 0x20);
    assert !IsLetter(0x20) && [] + [0x20] == [0x20];
    ReadFour([0x20], 0x51, 0x55, 0x4a, 0x44);
    assert Value(0x51) == 16 && Value(0x55) == 20 && Value(0x4a) == 9 && Value(0x44) == 3;
    assert B0(16, 20) == 0x41 && B1(20, 9) == 0x42 && B2(9, 3) == 0x43;
    hide Run, Value, B0, B1, B2;
    var blank: seq<Byte>, word: seq<Byte> := [0x20], [0x51, 0x55, 0x4a, 0x44];
    assert blank + word == [0x20, 0x51, 0x55, 0x4a, 0x44];
    assert Run([0x20] + [0x51, 0x55, 0x4a, 0x44]).out == [] + [0x41, 0x42, 0x43];
  }

  /** The terminal does not skip it, and makes something else or fails. */
  lemma ForeignDisagrees()
    ensures !Agrees([0x20, 0x51, 0x55, 0x4a, 0x44]) && Run([0x20, 0x51, 0x55, 0x4a, 0x44]).out == [0x41, 0x42, 0x43]
  {
    BlankSkipped();
    var c: seq<Byte> := [0x20, 0x51, 0x55, 0x4a, 0x44];
    assert c[0] == 0x20 && !IsLetter(c[0]) && c[4] != PAD;
    hide Run, Unpadded;
  }

  /** Padding on top of what is there changes nothing, although no encoder makes it. */
  lemma SurplusPaddingAgrees()
    ensures !Canonical([0x51, 0x55, 0x4a, 0x44, PAD]) && Agrees([0x51, 0x55, 0x4a, 0x44, PAD])
    ensures !Canonical([PAD, PAD, PAD, PAD]) && Agrees([PAD, PAD, PAD, PAD])
  {
    PadIsForeign();
    var c: seq<Byte>, p: seq<Byte> := [0x51, 0x55, 0x4a, 0x44, PAD], [PAD, PAD, PAD, PAD];
    assert Unpadded(c) == 4 && !IsLetter(p[0]);
    OnlyPadding(p);
  }

  lemma OnlyPadding(c: seq<Byte>)
    requires forall j :: 0 <= j < |c| ==> c[j] == PAD
    ensures Unpadded(c) == 0
  {
  }

  /** The terminal decodes whatever an encoder has made. */
  lemma CanonicalAgrees(c: seq<Byte>)
    requires Canonical(c)
    ensures Agrees(c)
  {
    PadIsForeign();
    var b := Unpadded(c);
    if b > 0 {
      assert |c| >= 4 && IsLetter(c[|c| - 3]);
      hide IsLetter;
      assert b >= |c| - 2;
    }
  }

  lemma CanonicalEnd(c: seq<Byte>)
    requires Canonical(c) && |c| > 0
    ensures |c| >= 4 && |c| % 4 == 0 && Pads(c) <= 2 && IsLetter(c[|c| - 1 - Pads(c)]) && !IsLetter(PAD)
    ensures forall j :: |c| - Pads(c) <= j < |c| ==> c[j] == PAD
  {
  }

  lemma CanonicalAt(c: seq<Byte>, i: nat)
    requires Canonical(c) && 4 * i + 4 <= |c|
    ensures IsLetter(c[4 * i]) && IsLetter(c[4 * i + 1]) && |c| % 4 == 0
    ensures forall j :: 4 * i + 2 <= j < 4 * i + 4 && c[j] != PAD ==> IsLetter(c[j])
    ensures if 4 * i + 4 < |c| then c[4 * i + 2] != PAD && c[4 * i + 3] != PAD && Pads(c) <= 2
            else if c[4 * i + 2] == PAD then c[4 * i + 3] == PAD && Pads(c) == 2
            else if c[4 * i + 3] == PAD then Pads(c) == 1
            else Pads(c) == 0
  {
    PadIsForeign();
  }

  lemma {:induction false} GroupsAreLetters(data: seq<Byte>, m: nat)
    requires 3 * m <= |data|
    ensures forall j :: 0 <= j < 4 * m ==> IsLetter(Groups(data, m)[j])
    decreases m
  {
    hide *;
    Start(data);
    if m > 0 {
      GroupsAreLetters(data, m - 1);
      OneMoreGroup(data, m - 1);
      var x, y, z := data[3 * m - 3], data[3 * m - 2], data[3 * m - 1];
      GroupIs(data, m - 1, x, y, z);
      DigitsValue(x, y, z);
    }
  }

  lemma LastGroup(data: seq<Byte>, m: nat)
    requires 3 * m < |data| < 3 * m + 3
    ensures var g := Group(data, m);
            IsLetter(g[0]) && IsLetter(g[1]) && g[3] == PAD && if |data| == 3 * m + 1 then g[2] == PAD else IsLetter(g[2])
  {
    hide Letter, Value, D0, D1, D2, D3, IsLetter;
    DigitsValue(ByteAt(data, 3 * m), ByteAt(data, 3 * m + 1), ByteAt(data, 3 * m + 2));
  }

  /** Both encoders make canonical strings, so decode of the terminal undoes them too. */
  lemma EncodedCanonical(data: seq<Byte>)
    ensures Canonical(Encoded(data))
  {
    hide Letter, Value, D0, D1, D2, D3, Groups, Group, IsLetter, Encoded;
    var m := |data| / 3;
    GroupsAreLetters(data, m);
    PadIsForeign();
    if |data| % 3 == 0 {
      AllGroups(data, m);
    } else {
      AllGroups(data, m + 1);
      OneMoreGroup(data, m);
      LastGroup(data, m);
    }
  }
}
