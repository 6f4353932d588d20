/** ccclib/src/base32.cpp. */
module Base32 {

  type Byte = bv8

  const PAD: Byte := 0x3d

  /** b32_alphabet. */
  function Letter(d: Byte): (c: Byte)
    requires d < 32
    ensures c != PAD && c != 0
  {
    if d < 26 then 0x41 + d else 0x32 + (d - 26)
  }

  /** The alphabet of section 6 of RFC 4648. */
  const ALPHABET := "ABCDEFGHIJKLMNOPQRSTUVWXYZ234567"

  /** Digit i is written as the i-th letter, and read back from it. */
  lemma AlphabetLetter(i: nat)
    requires i < 32
    ensures |ALPHABET| == 32 && Letter(i as Byte) as int == ALPHABET[i] as int && Find(Letter(i as Byte)) == Found(i as Byte)
  {
    LetterFound(i as Byte);
    LetterNumber(i);
    hide Letter, Find;
    if i < 26 {
      assert ALPHABET[i] as int == 65 + i;
    } else {
      assert ALPHABET[i] as int == 50 + (i - 26);
    }
  }

  lemma LetterNumber(i: nat)
    requires i < 32
    ensures Letter(i as Byte) as int == if i < 26 then 65 + i else 50 + (i - 26)
  {
  }

  datatype Place = Found(index: Byte) | Ignored | Foreign

  /** What strchr finds: it also finds the zero byte that ends the alphabet. */
  function Find(c: Byte): Place {
    if 0x41 <= c <= 0x5a then Found(c - 0x41)
    else if 0x32 <= c <= 0x37 then Found(26 + (c - 0x32))
    else if c == 0 then Found(32)
    else if c == PAD || c == 0x20 || c == 0x0a || c == 0x0d then Ignored
    else Foreign
  }

  lemma LetterFound(d: Byte)
    requires d < 32
    ensures Find(Letter(d)) == Found(d)
  {
  }

  // ----- encoding -----

  function ByteAt(data: seq<Byte>, i: nat): Byte { if i < |data| then data[i] else 0 }

  /** Of five bytes that make eight digits, the k-th digit; x is the byte in which it begins, y the next. */
  function Piece(k: nat, x: Byte, y: Byte): (d: Byte)
    ensures d < 32
  {
    match k
    case 0 => x >> 3
    case 1 => ((x & 7) << 2) | (y >> 6)
    case 2 => (x >> 1) & 0x1f
    case 3 => ((x & 1) << 4) | (y >> 4)
    case 4 => ((x & 0xf) << 1) | (y >> 7)
    case 5 => (x >> 2) & 0x1f
    case 6 => ((x & 3) << 3) | (y >> 5)
    case _ => x & 0x1f
  }

  /** The j-th five bits of data, continued with zeros (section 6 of RFC 4648). */
  function Digit(data: seq<Byte>, j: nat): (d: Byte)
    ensures d < 32
  {
    Piece(j % 8, ByteAt(data, 5 * j / 8), ByteAt(data, 5 * j / 8 + 1))
  }

  /** So many letters hold all the bits. */
  function Letters(len: nat): nat { (len * 8 + 4) / 5 }

  function Encoded(data: seq<Byte>): seq<Byte> {
    seq((|data| + 4) / 5 * 8, j requires 0 <= j => if j < Letters(|data|) then Letter(Digit(data, j)) else PAD)
  }

  /** The test vectors "fooba" and "f" of section 10 of RFC 4648. */
  lemma TestVectors()
    ensures Encoded([0x66, 0x6f, 0x6f, 0x62, 0x61]) == [0x4d, 0x5a, 0x58, 0x57, 0x36, 0x59, 0x54, 0x42]
    ensures Encoded([0x66]) == [0x4d, 0x59, 0x3d, 0x3d, 0x3d, 0x3d, 0x3d, 0x3d]
  {
    var long: seq<Byte>, short: seq<Byte> := [0x66, 0x6f, 0x6f, 0x62, 0x61], [0x66];
    assert Digit(long, 0) == 12 && Digit(long, 1) == 25 && Digit(long, 2) == 23 && Digit(long, 3) == 22;
    assert Digit(long, 4) == 30 && Digit(long, 5) == 24 && Digit(long, 6) == 19 && Digit(long, 7) == 1;
    assert Digit(short, 0) == 12 && Digit(short, 1) == 24;
    hide Digit;
  }

  function Append8(q: bv64, x: Byte): bv64 { (q << 8) | x as bv64 }

  /** k bytes from i on. */
  function Quintuple(data: seq<Byte>, i: nat, k: nat): bv64
    requires k <= 5
  {
    if k == 0 then 0 else Append8(Quintuple(data, i, k - 1), ByteAt(data, i + k - 1))
  }

  /** The five bits at the given shift, from 35 down to 0. */
  function Cut(q: bv64, k: nat): (d: Byte)
    requires k < 8
    ensures d < 32
  {
    ((q >> (35 - 5 * k)) & 0x1f) as Byte
  }

  function Five(b0: Byte, b1: Byte, b2: Byte, b3: Byte, b4: Byte): bv64 {
    Append8(Append8(Append8(Append8(Append8(0, b0), b1), b2), b3), b4)
  }

  lemma CutFirst(b0: Byte, b1: Byte, b2: Byte, b3: Byte, b4: Byte)
    ensures var q := Five(b0, b1, b2, b3, b4); Cut(q, 0) == b0 >> 3 && Cut(q, 1) == ((b0 & 7) << 2) | (b1 >> 6)
  {
  }

  lemma CutHigh(b0: Byte, b1: Byte, b2: Byte, b3: Byte, b4: Byte)
    ensures var q := Five(b0, b1, b2, b3, b4); Cut(q, 2) == (b1 >> 1) & 0x1f && Cut(q, 3) == ((b1 & 1) << 4) | (b2 >> 4)
  {
  }

  lemma CutLow(b0: Byte, b1: Byte, b2: Byte, b3: Byte, b4: Byte)
    ensures var q := Five(b0, b1, b2, b3, b4);
            && Cut(q, 4) == ((b2 & 0xf) << 1) | (b3 >> 7) && Cut(q, 5) == (b3 >> 2) & 0x1f
            && Cut(q, 6) == ((b3 & 3) << 3) | (b4 >> 5) && Cut(q, 7) == b4 & 0x1f
  {
  }

  lemma Cut0(b0: Byte, b1: Byte, b2: Byte, b3: Byte, b4: Byte, b5: Byte)
    ensures Cut(Five(b0, b1, b2, b3, b4), 0) == Piece(0, b0, b1)
  {
    hide Five, Cut;
    CutFirst(b0, b1, b2, b3, b4);
  }

  lemma Cut1(b0: Byte, b1: Byte, b2: Byte, b3: Byte, b4: Byte, b5: Byte)
    ensures Cut(Five(b0, b1, b2, b3, b4), 1) == Piece(1, b0, b1)
  {
    hide Five, Cut;
    CutFirst(b0, b1, b2, b3, b4);
  }

  lemma Cut2(b0: Byte, b1: Byte, b2: Byte, b3: Byte, b4: Byte, b5: Byte)
    ensures Cut(Five(b0, b1, b2, b3, b4), 2) == Piece(2, b1, b2)
  {
    hide Five, Cut;
    CutHigh(b0, b1, b2, b3, b4);
  }

  lemma Cut3(b0: Byte, b1: Byte, b2: Byte, b3: Byte, b4: Byte, b5: Byte)
    ensures Cut(Five(b0, b1, b2, b3, b4), 3) == Piece(3, b1, b2)
  {
    hide Five, Cut;
    CutHigh(b0, b1, b2, b3, b4);
  }

  lemma Cut4(b0: Byte, b1: Byte, b2: Byte, b3: Byte, b4: Byte, b5: Byte)
    ensures Cut(Five(b0, b1, b2, b3, b4), 4) == Piece(4, b2, b3)
  {
    hide Five, Cut;
    CutLow(b0, b1, b2, b3, b4);
  }

  lemma Cut5(b0: Byte, b1: Byte, b2: Byte, b3: Byte, b4: Byte, b5: Byte)
    ensures Cut(Five(b0, b1, b2, b3, b4), 5) == Piece(5, b3, b4)
  {
    hide Five, Cut;
    CutLow(b0, b1, b2, b3, b4);
  }

  lemma Cut6(b0: Byte, b1: Byte, b2: Byte, b3: Byte, b4: Byte, b5: Byte)
    ensures Cut(Five(b0, b1, b2, b3, b4), 6) == Piece(6, b3, b4)
  {
    hide Five, Cut;
    CutLow(b0, b1, b2, b3, b4);
  }

  lemma Cut7(b0: Byte, b1: Byte, b2: Byte, b3: Byte, b4: Byte, b5: Byte)
    ensures Cut(Five(b0, b1, b2, b3, b4), 7) == Piece(7, b4, b5)
  {
    hide Five, Cut;
    CutLow(b0, b1, b2, b3, b4);
  }

  lemma QuintupleIs(data: seq<Byte>, i: nat)
    ensures Quintuple(data, i, 5)
            == Five(ByteAt(data, i), ByteAt(data, i + 1), ByteAt(data, i + 2), ByteAt(data, i + 3), ByteAt(data, i + 4))
  {
    hide Append8, ByteAt;
    assert Quintuple(data, i, 1) == Append8(0, ByteAt(data, i));
    assert Quintuple(data, i, 3) == Append8(Append8(Quintuple(data, i, 1), ByteAt(data, i + 1)), ByteAt(data, i + 2));
  }

  /** Where digit j begins, and where the next one does. */
  lemma Positions(j: nat)
    ensures var i, n := j / 8 * 5, 5 * j / 8;
            && n == i + 5 * (j % 8) / 8 && (j + 1) % 8 == (if j % 8 == 7 then 0 else j % 8 + 1)
            && 5 * (j + 1) / 8 == n + (if j % 8 in {1, 3, 4, 6, 7} then 1 else 0)
  {
  }

  lemma CutIsPiece(data: seq<Byte>, i: nat, k: nat)
    requires k < 8
    ensures Cut(Quintuple(data, i, 5), k) == Piece(k, ByteAt(data, i + 5 * k / 8), ByteAt(data, i + 5 * k / 8 + 1))
  {
    hide *;
    QuintupleIs(data, i);
    var b0, b1, b2 := ByteAt(data, i), ByteAt(data, i + 1), ByteAt(data, i + 2);
    var b3, b4, b5 := ByteAt(data, i + 3), ByteAt(data, i + 4), ByteAt(data, i + 5);
    match k
    case 0 => Cut0(b0, b1, b2, b3, b4, b5);
    case 1 => Cut1(b0, b1, b2, b3, b4, b5);
    case 2 => Cut2(b0, b1, b2, b3, b4, b5);
    case 3 => Cut3(b0, b1, b2, b3, b4, b5);
    case 4 => Cut4(b0, b1, b2, b3, b4, b5);
    case 5 => Cut5(b0, b1, b2, b3, b4, b5);
    case 6 => Cut6(b0, b1, b2, b3, b4, b5);
    case _ => Cut7(b0, b1, b2, b3, b4, b5);
  }

  lemma Parts(m: nat, k: nat)
    requires k < 8
    ensures (8 * m + k) % 8 == k && 5 * (8 * m + k) / 8 == 5 * m + 5 * k / 8
  {
  }

  lemma CutIsDigit(data: seq<Byte>, m: nat, k: nat)
    requires k < 8
    ensures Cut(Quintuple(data, 5 * m, 5), k) == Digit(data, 8 * m + k)
  {
    hide *;
    Parts(m, k);
    CutIsPiece(data, 5 * m, k);
    DigitIs(data, 8 * m + k);
  }

  lemma DigitIs(data: seq<Byte>, j: nat)
    ensures Digit(data, j) == Piece(j % 8, ByteAt(data, 5 * j / 8), ByteAt(data, 5 * j / 8 + 1))
  {
  }

  /** base32_encode. */
  method Encode(data: array<Byte>) returns (encoded: array<Byte>)
    ensures fresh(encoded) && encoded[..] == Encoded(data[..])
  {
    hide *;
    var len := data.Length;
    var numOfEquals := 0;
    match 8 * len % 40 {
      case 8 => numOfEquals := 6;
      case 16 => numOfEquals := 4;
      case 24 => numOfEquals := 3;
      case 32 => numOfEquals := 1;
      case _ =>
    }
    var outputLength := (len * 8 + 4) / 5;
    Whole(len, numOfEquals);
    encoded := new Byte[outputLength + numOfEquals];
    var i, j := 0, 0;
    while i < len
      invariant i % 5 == 0 && j == i / 5 * 8 && i < len + 5
      invariant j <= encoded.Length && forall t :: 0 <= t < j ==> encoded[t] == Raw(data[..], t)
    {
      var quintuple: bv64 := 0;
      var k := 0;
      QuintupleStarts(data[..], i);
      while k < 5
        modifies {}
        invariant k <= 5 && quintuple == Quintuple(data[..], i, k)
      {
        QuintupleMore(data[..], i, k);
        quintuple := Append8(quintuple, if i + k < len then data[i + k] else 0);
        k := k + 1;
      }
      Room(len, i);
      k := 0;
      while k < 8
        invariant k <= 8 && j == i / 5 * 8 + k && fresh(encoded)
        invariant forall t :: 0 <= t < j ==> encoded[t] == Raw(data[..], t)
      {
        CutIsDigit(data[..], i / 5, k);
        RawIs(data[..], j);
        encoded[j] := Letter(Cut(quintuple, k));
        j := j + 1;
        k := k + 1;
      }
      i := i + 5;
    }
    i := 0;
    while i < numOfEquals
      invariant i <= numOfEquals
      invariant forall t :: 0 <= t < outputLength ==> encoded[t] == Raw(data[..], t)
      invariant forall t :: outputLength <= t < outputLength + i ==> encoded[t] == PAD
    {
      encoded[outputLength + i] := PAD;
      i := i + 1;
    }
    EncodedIs(data[..], encoded[..]);
  }

  function Raw(data: seq<Byte>, j: nat): Byte { Letter(Digit(data, j)) }

  lemma RawIs(data: seq<Byte>, j: nat)
    ensures Raw(data, j) == Letter(Digit(data, j))
  {
  }

  lemma Whole(len: nat, equals: nat)
    requires equals == var r := 8 * len % 40; if r == 8 then 6 else if r == 16 then 4 else if r == 24 then 3 else if r == 32 then 1 else 0
    ensures Letters(len) == (len * 8 + 4) / 5 && Letters(len) + equals == (len + 4) / 5 * 8
  {
  }

  lemma Room(len: nat, i: nat)
    requires i < len && i % 5 == 0
    ensures i / 5 * 8 + 8 <= (len + 4) / 5 * 8
  {
  }

  lemma QuintupleStarts(data: seq<Byte>, i: nat)
    ensures Quintuple(data, i, 0) == 0
  {
  }

  lemma QuintupleMore(data: seq<Byte>, i: nat, k: nat)
    requires k < 5
    ensures Quintuple(data, i, k + 1) == Append8(Quintuple(data, i, k), if i + k < |data| then data[i + k] else 0)
  {
  }

  lemma EncodedIs(data: seq<Byte>, e: seq<Byte>)
    requires |e| == (|data| + 4) / 5 * 8 && forall t :: 0 <= t < |e| ==> e[t] == if t < Letters(|data|) then Raw(data, t) else PAD
    ensures e == Encoded(data)
  {
  }

  // ----- decoding -----

  /** The bytes complete so far, the one being put together, and how many of its bits are still missing. */
  datatype Bits = Bits(out: seq<Byte>, cur: Byte, left: nat)

  datatype Outcome = Done(bits: Bits) | Invalid(at: nat)

  function Into(cur: Byte, d: Byte, left: nat): Byte
    requires 5 < left <= 8
  {
    cur | (d << (left - 5))
  }

  function Fill(cur: Byte, d: Byte, left: nat): Byte
    requires left <= 5
  {
    cur | (d >> (5 - left))
  }

  function Spill(d: Byte, left: nat): Byte
    requires left <= 5
  {
    d << (3 + left)
  }

  function Feed(s: Bits, d: Byte): (r: Bits)
    requires 1 <= s.left <= 8
    ensures 1 <= r.left <= 8
  {
    if s.left > 5 then Bits(s.out, Into(s.cur, d, s.left), s.left - 5)
    else Bits(s.out + [Fill(s.cur, d, s.left)], Spill(d, s.left), s.left + 3)
  }

  /** All the characters, one after the other. A character neither in the alphabet nor ignored is an error. */
  function Run(chars: seq<Byte>): (r: Outcome)
    ensures r.Done? ==> 1 <= r.bits.left <= 8
  {
    if chars == [] then Done(Bits([], 0, 8))
    else
      var front, c := Run(chars[..|chars| - 1]), chars[|chars| - 1];
      if front.Invalid? then front
      else
        match Find(c)
        case Found(d) => Done(Feed(front.bits, d))
        case Ignored => front
        case Foreign => Invalid(|chars| - 1)
  }

  /** As many bytes as the letters hold completely, and never more than were allocated. */
  lemma {:induction false} RunLength(chars: seq<Byte>)
    ensures var r := Run(chars); r.Done? ==> 8 * |r.bits.out| + (8 - r.bits.left) <= 5 * |chars|
    decreases |chars|
  {
    if chars != [] {
      hide Find;
      RunLength(chars[..|chars| - 1]);
    }
  }

  /** base32_decode. */
  method Decode(data: array<Byte>) returns (r: Outcome, decoded: seq<Byte>)
    ensures r == Run(data[..]) && (r.Done? ==> decoded == r.bits.out)
  {
    hide *;
    var len := data.Length;
    var outputLength := (5 * len + 13) / 8;
    var buf := new Byte[outputLength];
    var decodedLength, bitsLeft: nat := 0, 8;
    var currentByte: Byte := 0;
    var i := 0;
    RunNothing();
    assert data[..0] == [];
    while i < len
      invariant i <= len && decodedLength <= buf.Length && 1 <= bitsLeft <= 8
      invariant Run(data[..i]) == Done(Bits(buf[..decodedLength], currentByte, bitsLeft))
    {
      ghost var s := Bits(buf[..decodedLength], currentByte, bitsLeft);
      assert data[..i + 1] == data[..i] + [data[i]];
      RunMore(data[..i], data[i]);
      RunLength(data[..i]);
      match Find(data[i]) {
        case Found(chidx) =>
          FeedIs(s, chidx);
          if bitsLeft > 5 {
            currentByte := Into(currentByte, chidx, bitsLeft);
            bitsLeft := bitsLeft - 5;
          } else {
            buf[decodedLength] := Fill(currentByte, chidx, bitsLeft);
            decodedLength := decodedLength + 1;
            currentByte := Spill(chidx, bitsLeft);
            bitsLeft := bitsLeft + 3;
          }
          assert Bits(buf[..decodedLength], currentByte, bitsLeft) == Feed(s, chidx);
        case Ignored =>
        case Foreign =>
          RunInvalid(data[..i + 1], data[i + 1..], i);
          assert data[..] == data[..i + 1] + data[i + 1..];
          return Invalid(i), [];
      }
      i := i + 1;
    }
    assert data[..i] == data[..];
    return Run(data[..]), buf[..decodedLength];
  }

  lemma RunNothing()
    ensures Run([]) == Done(Bits([], 0, 8))
  {
  }

  lemma RunMore(chars: seq<Byte>, c: Byte)
    requires Run(chars).Done?
    ensures 1 <= Run(chars).bits.left <= 8
    ensures Run(chars + [c]) == match Find(c)
                                case Found(d) => Done(Feed(Run(chars).bits, d))
                                case Ignored => Run(chars)
                                case Foreign => Invalid(|chars|)
  {
    assert (chars + [c])[..|chars|] == chars;
  }

  lemma FeedIs(s: Bits, d: Byte)
    requires 1 <= s.left <= 8
    ensures Feed(s, d) == if s.left > 5 then Bits(s.out, Into(s.cur, d, s.left), s.left - 5)
                          else Bits(s.out + [Fill(s.cur, d, s.left)], Spill(d, s.left), s.left + 3)
  {
  }

  lemma {:induction false} RunInvalid(chars: seq<Byte>, more: seq<Byte>, at: nat)
    requires Run(chars) == Invalid(at)
    ensures Run(chars + more) == Invalid(at)
    decreases |more|
  {
    if more == [] {
      assert chars + more == chars;
    } else {
      RunInvalid(chars, more[..|more| - 1], at);
      assert (chars + more)[..|chars + more| - 1] == chars + more[..|more| - 1];
    }
  }

  /** Exactly the strings with a foreign character are rejected, at the first one. */
  lemma {:induction false} RejectsForeign(chars: seq<Byte>)
    ensures Run(chars).Invalid? <==> exists i :: 0 <= i < |chars| && Find(chars[i]) == Foreign
    ensures Run(chars).Invalid? ==> var at := Run(chars).at;
              at < |chars| && Find(chars[at]) == Foreign && forall i :: 0 <= i < at ==> Find(chars[i]) != Foreign
    decreases |chars|
  {
    hide Find, Feed;
    if chars != [] {
      var front := chars[..|chars| - 1];
      RejectsForeign(front);
      assert forall i :: 0 <= i < |front| ==> front[i] == chars[i];
      if i :| 0 <= i < |chars| && Find(chars[i]) == Foreign {
        if i < |front| { assert Find(front[i]) == Foreign; }
      }
    }
  }

  function SetBit(x: Byte, n: nat): Byte
    requires n <= 8
  {
    x | (1 << n)
  }

  function Odd(d: Byte): Byte { d | 1 }

  /** The sixth bit of digit 32, where it falls into the byte being put together. */
  lemma SixthBit(cur: Byte, left: nat)
    requires 1 <= left <= 8
    ensures left == 8 ==> Into(cur, 32, 8) == Into(cur, 0, 8)
    ensures 5 < left < 8 ==> Into(cur, 32, left) == Into(SetBit(cur, left), 0, left)
    ensures left <= 5 ==> Fill(cur, 32, left) == Fill(SetBit(cur, left), 0, left) && Spill(32, left) == Spill(0, left) == 0
  {
  }

  /** A zero byte counts as the first letter, and sets the last bit of the digit before it, unless that is in a byte
      that is complete. */
  lemma ZeroByte(s: Bits)
    requires 1 <= s.left <= 8
    ensures Find(0) == Found(32)
    ensures Feed(s, 32) == Feed(if s.left < 8 then s.(cur := SetBit(s.cur, s.left)) else s, 0)
  {
    SixthBit(s.cur, s.left);
    hide Into, Fill, Spill, SetBit;
  }

  lemma LastBitInto(cur: Byte, d: Byte, left: nat)
    requires 5 < left <= 8 && d < 32
    ensures SetBit(Into(cur, d, left), left - 5) == Into(cur, Odd(d), left)
  {
    OddMoved(d, left);
    Or(cur, d << (left - 5), 1 << (left - 5));
  }

  lemma OddMoved(d: Byte, left: nat)
    requires 5 < left <= 8 && d < 32
    ensures (d << (left - 5)) | (1 << (left - 5)) == Odd(d) << (left - 5)
  {
  }

  lemma Or(x: Byte, y: Byte, z: Byte)
    ensures (x | y) | z == x | (y | z)
  {
  }

  lemma LastBitFill(cur: Byte, d: Byte, left: nat)
    requires 1 <= left < 5 && d < 32
    ensures Fill(cur, d, left) == Fill(cur, Odd(d), left)
  {
  }

  lemma LastBitSpill(d: Byte, left: nat)
    requires 1 <= left < 5 && d < 32
    ensures SetBit(Spill(d, left), left + 3) == Spill(Odd(d), left)
  {
  }

  /** So behind digit d it is the same as making d odd and going on with a zero digit. */
  lemma ZeroAfterDigit(s: Bits, d: Byte)
    requires 1 <= s.left <= 8 && d < 32
    ensures Feed(Feed(s, d), 32) == if s.left == 5 then Feed(Feed(s, d), 0) else Feed(Feed(s, Odd(d)), 0)
  {
    ZeroByte(Feed(s, d));
    if s.left > 5 {
      LastBitInto(s.cur, d, s.left);
    } else if s.left < 5 {
      LastBitFill(s.cur, d, s.left);
      LastBitSpill(d, s.left);
    }
    hide Into, Fill, Spill, SetBit, Odd;
  }

  // ----- round trip -----

  function Left(k: nat): nat {
    match k
    case 0 => 8
    case 1 => 3
    case 2 => 6
    case 3 => 1
    case 4 => 4
    case 5 => 7
    case 6 => 2
    case _ => 5
  }

  function Mask(k: nat): Byte {
    match k
    case 0 => 0
    case 1 => 0xf8
    case 2 => 0xc0
    case 3 => 0xfe
    case 4 => 0xf0
    case 5 => 0x80
    case 6 => 0xfc
    case _ => 0xe0
  }

  /** The state after the first j digits of data. */
  function Midway(data: seq<Byte>, j: nat): Bits
    requires 5 * j / 8 <= |data|
  {
    Bits(data[..5 * j / 8], Begun(j % 8, ByteAt(data, 5 * j / 8)), Left(j % 8))
  }

  /** The bits of x that the first k digits of five bytes have filled when they are about to go on in x. */
  function Begun(k: nat, x: Byte): Byte { x & Mask(k) }

  /** The k-th digit completes x and begins y; or it lies within x. */
  predicate Ends(k: nat) { k in {1, 3, 4, 6, 7} }

  function After(k: nat): nat { if k == 7 then 0 else k + 1 }

  predicate Fits(k: nat, x: Byte, y: Byte) {
    var d, left := Piece(k, x, y), Left(k);
    if Ends(k) then 1 <= left <= 5 && left + 3 == Left(After(k)) && Fill(Begun(k, x), d, left) == x && Spill(d, left) == Begun(After(k), y)
    else 5 < left <= 8 && left - 5 == Left(After(k)) && Into(Begun(k, x), d, left) == Begun(After(k), x)
  }

  lemma Fits0(x: Byte, y: Byte)
    ensures Fits(0, x, y)
  {
  }

  lemma Fits1(x: Byte, y: Byte)
    ensures Fits(1, x, y)
  {
  }

  lemma Fits2(x: Byte, y: Byte)
    ensures Fits(2, x, y)
  {
  }

  lemma Fits3(x: Byte, y: Byte)
    ensures Fits(3, x, y)
  {
  }

  lemma Fits4(x: Byte, y: Byte)
    ensures Fits(4, x, y)
  {
  }

  lemma Fits5(x: Byte, y: Byte)
    ensures Fits(5, x, y)
  {
  }

  lemma Fits6(x: Byte, y: Byte)
    ensures Fits(6, x, y)
  {
  }

  lemma Fits7(x: Byte, y: Byte)
    ensures Fits(7, x, y)
  {
  }

  lemma PieceFits(k: nat, x: Byte, y: Byte)
    requires k < 8
    ensures Fits(k, x, y)
  {
    hide *;
    match k
    case 0 => Fits0(x, y);
    case 1 => Fits1(x, y);
    case 2 => Fits2(x, y);
    case 3 => Fits3(x, y);
    case 4 => Fits4(x, y);
    case 5 => Fits5(x, y);
    case 6 => Fits6(x, y);
    case _ => Fits7(x, y);
  }

  lemma FeedStep(out: seq<Byte>, k: nat, x: Byte, y: Byte)
    requires k < 8 && 1 <= Left(k) <= 8
    ensures Feed(Bits(out, Begun(k, x), Left(k)), Piece(k, x, y))
            == if Ends(k) then Bits(out + [x], Begun(After(k), y), Left(After(k))) else Bits(out, Begun(After(k), x), Left(After(k)))
  {
    hide Into, Fill, Spill, Piece, Begun, Left, Ends, After;
    PieceFits(k, x, y);
  }

  lemma LeftBounds(k: nat)
    ensures 1 <= Left(k) <= 8
  {
  }

  lemma TakeOne(data: seq<Byte>, n: nat)
    requires n < |data|
    ensures data[..n + 1] == data[..n] + [ByteAt(data, n)]
  {
  }

  lemma DigitFeeds(data: seq<Byte>, j: nat)
    requires j < Letters(|data|)
    ensures 5 * j / 8 <= |data| && 5 * (j + 1) / 8 <= |data|
    ensures Feed(Midway(data, j), Digit(data, j)) == Midway(data, j + 1)
  {
    hide Begun, Left, Piece, ByteAt, Feed, Mask;
    var n := 5 * j / 8;
    Positions(j);
    LeftBounds(j % 8);
    FeedStep(data[..n], j % 8, ByteAt(data, n), ByteAt(data, n + 1));
    if Ends(j % 8) {
      TakeOne(data, n);
    }
  }

  lemma {:induction false} DigitsDecode(data: seq<Byte>, j: nat)
    requires j <= Letters(|data|)
    ensures 5 * j / 8 <= |data| && |Encoded(data)| >= j && Run(Encoded(data)[..j]) == Done(Midway(data, j))
    decreases j
  {
    hide *;
    EncodedShape(data);
    if j == 0 {
      Begin(data);
    } else {
      DigitsDecode(data, j - 1);
      DigitFeeds(data, j - 1);
      var e := Encoded(data);
      assert e[..j] == e[..j - 1] + [e[j - 1]];
      RunMore(e[..j - 1], e[j - 1]);
      LetterFound(Digit(data, j - 1));
    }
  }

  lemma Begin(data: seq<Byte>)
    ensures Run(Encoded(data)[..0]) == Done(Midway(data, 0))
  {
    assert Encoded(data)[..0] == [];
    assert Begun(0, ByteAt(data, 0)) == 0;
  }

  lemma EncodedShape(data: seq<Byte>)
    ensures var e := Encoded(data);
            Letters(|data|) <= |e| && forall j :: 0 <= j < |e| ==> e[j] == if j < Letters(|data|) then Letter(Digit(data, j)) else PAD
  {
  }

  lemma {:induction false} PadsIgnored(chars: seq<Byte>, pads: seq<Byte>)
    requires Run(chars).Done? && forall i :: 0 <= i < |pads| ==> pads[i] == PAD
    ensures Run(chars + pads) == Run(chars)
    decreases |pads|
  {
    if pads == [] {
      assert chars + pads == chars;
    } else {
      var front := pads[..|pads| - 1];
      PadsIgnored(chars, front);
      assert chars + pads == (chars + front) + [PAD];
      RunMore(chars + front, PAD);
    }
  }

  /** base32_decode gives back what base32_encode was given, for every byte string. */
  lemma RoundTrip(data: seq<Byte>)
    ensures Run(Encoded(data)).Done? && Run(Encoded(data)).bits.out == data
  {
    hide *;
    var e, n := Encoded(data), Letters(|data|);
    EncodedShape(data);
    DigitsDecode(data, n);
    PadsIgnored(e[..n], e[n..]);
    assert e == e[..n] + e[n..];
    AllBytes(data);
  }

  lemma AllBytes(data: seq<Byte>)
    ensures var n := Letters(|data|); 5 * n / 8 <= |data| ==> Midway(data, n).out == data
  {
  }
}
