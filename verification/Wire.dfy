/**
 The primitive encodings of the wire format (broker/packets/codec.go): the variable byte integer
 of section 1.5.5 of MQTT 5.0, fixed-width integers, binary data and UTF-8 strings.

 Strings on the wire are byte sequences, as Go strings are.
 */
module Wire {
  type byte = b: int | 0 <= b < 0x100
  type uint16 = n: int | 0 <= n < 0x1_0000
  type uint32 = n: int | 0 <= n < 0x1_0000_0000

  type Bytes = seq<byte>

  /** The greatest variable byte integer. */
  const MaxLength := 268435455

  datatype Error =
    | OffsetOutOfRange
    | InvalidUTF8
    | MalformedLength
    | EndOfInput
    | UnsupportedProperty
    | MalformedFlags
    | QosOutOfRange
    | DupWithoutQos
    | NoPacketID
    | NoUsername
    | PacketTooLarge
    | InvalidPacketType
    | IndexOutOfRange  // not an error value of the source: it indexes past the end of the buffer

  /** A value and the offset after it, or why there is none. */
  datatype Decoded<T> = Decoded(value: T, next: nat) | Failed(error: Error) {
    predicate IsFailure() {
      Failed?
    }

    function PropagateFailure<U>(): Decoded<U>
      requires Failed?
    {
      Failed(error)
    }

    function Extract(): (T, nat)
      requires Decoded?
    {
      (value, next)
    }
  }

  predicate Gives<T(==)>(r: Decoded<T>, value: T, next: nat) {
    r == Decoded(value, next)
  }

  /** Some bytes stand in a buffer at an offset. */
  ghost predicate StandsAt(buf: Bytes, offset: nat, s: Bytes) {
    offset + |s| <= |buf| && buf[offset..offset + |s|] == s
  }

  lemma StandsBoth(buf: Bytes, offset: nat, s: Bytes, t: Bytes)
    ensures StandsAt(buf, offset, s + t) <==> StandsAt(buf, offset, s) && StandsAt(buf, offset + |s|, t)
  {
    if StandsAt(buf, offset, s + t) {
      assert buf[offset..offset + |s|] == buf[offset..offset + |s + t|][..|s|];
      assert buf[offset + |s|..offset + |s| + |t|] == buf[offset..offset + |s + t|][|s|..];
    }
    if StandsAt(buf, offset, s) && StandsAt(buf, offset + |s|, t) {
      assert buf[offset..offset + |s + t|] == buf[offset..offset + |s|] + buf[offset + |s|..offset + |s| + |t|];
    }
  }

  lemma StandsInFront(s: Bytes, rest: Bytes)
    ensures StandsAt(s + rest, 0, s)
  {
  }

  /** A buffer that is written at its end and read from its front. */
  class Buffer {
    var data: Bytes

    constructor ()
      ensures data == []
    {
      data := [];
    }

    method WriteByte(b: byte)
      modifies this
      ensures data == old(data) + [b]
    {
      data := data + [b];
    }

    method Write(s: Bytes)
      modifies this
      ensures data == old(data) + s
    {
      data := data + s;
    }
  }

  // ---------- Section 1.5.5: variable byte integers ----------

  function EncodedLength(n: nat): (s: Bytes)
    ensures s != []
  {
    if n < 128 then [n] else [n % 128 + 128] + EncodedLength(n / 128)
  }

  method EncodeLength(b: Buffer, length: nat)
    modifies b
    ensures b.data == old(b.data) + EncodedLength(length)
  {
    var rest := length;
    ghost var all := old(b.data) + EncodedLength(length);
    while true
      invariant b.data + EncodedLength(rest) == all
      decreases rest
    {
      var eb := rest % 128;
      ghost var written, n := b.data, rest;
      rest := rest / 128;
      if rest > 0 {
        eb := eb + 128;
      }
      b.WriteByte(eb);
      assert written + ([eb] + EncodedLength(rest)) == written + [eb] + EncodedLength(rest);
      if rest == 0 {
        assert EncodedLength(n) == [eb];
        break;
      }
    }
  }

  datatype Length = Length(value: nat, size: nat) | BadLength(error: Error)

  /**
   What the byte at index i adds: its low seven bits, shifted by seven places an index in 32 bits.
   The fifth byte has four bits left, and later ones none.
   */
  function Shifted(b: byte, i: nat): nat {
    var low := b % 128;
    match i
    case 0 => low
    case 1 => low * 0x80
    case 2 => low * 0x4000
    case 3 => low * 0x20_0000
    case 4 => low % 16 * 0x1000_0000
    case _ => 0
  }

  /** Reads on from the byte at index i, with `value` read so far. */
  function LengthFrom(s: Bytes, i: nat, value: nat): (r: Length)
    requires value <= MaxLength
    ensures r.Length? ==> value <= r.value <= MaxLength && i < r.size <= |s|
    decreases |s| - i
  {
    if i >= |s| then BadLength(EndOfInput)
    else
      var v := value + Shifted(s[i], i);
      if v > MaxLength then BadLength(MalformedLength)
      else if s[i] < 128 then Length(v, i + 1)
      else LengthFrom(s, i + 1, v)
  }

  function LengthOf(s: Bytes): Length {
    LengthFrom(s, 0, 0)
  }

  /** Reads a length off the front of a buffer. */
  method DecodeLength(b: Buffer) returns (r: Length)
    modifies b
    ensures r == LengthOf(old(b.data))
    ensures r.Length? ==> b.data == old(b.data)[r.size..]
  {
    var multiplier, value: nat, bu := 0, 0, 0;
    ghost var s := b.data;
    while true
      invariant bu <= |s| && multiplier == 7 * bu && value <= MaxLength
      invariant b.data == s[bu..] && LengthOf(s) == LengthFrom(s, bu, value)
      decreases |s| - bu
    {
      if b.data == [] {
        return BadLength(EndOfInput);
      }
      var eb := b.data[0];
      b.data := b.data[1..];
      value := value + Shifted(eb, multiplier / 7);
      bu := bu + 1;
      if value > MaxLength {
        return BadLength(MalformedLength);
      }
      if eb < 128 {
        return Length(value, bu);
      }
      multiplier := multiplier + 7;
    }
  }

  function Weight(i: nat): nat
    requires i <= 4
  {
    match i case 0 => 1 case 1 => 0x80 case 2 => 0x4000 case 3 => 0x20_0000 case 4 => 0x1000_0000
  }

  lemma DigitWeight(i: nat, n: nat, b: byte)
    requires i < 4 && b % 128 == n % 128
    ensures Shifted(b, i) == n % 128 * Weight(i)
    ensures Weight(i + 1) == 128 * Weight(i)
    ensures n * Weight(i) == n % 128 * Weight(i) + n / 128 * Weight(i + 1)
  {
    assert n == n % 128 + 128 * (n / 128);
    match i
    case 0 =>
    case 1 =>
    case 2 =>
    case 3 =>
  }

  lemma MoreDigitsFit(i: nat, n: nat)
    requires i < 4 && n >= 128 && n * Weight(i) <= MaxLength
    ensures i < 3
  {
  }

  lemma ReadDigit(s: Bytes, i: nat, value: nat, n: nat)
    requires i < 4 && value <= MaxLength && StandsAt(s, i, EncodedLength(n))
    requires value + n % 128 * Weight(i) <= MaxLength
    ensures LengthFrom(s, i, value) ==
            var v := value + n % 128 * Weight(i);
            if n < 128 then Length(v, i + 1) else LengthFrom(s, i + 1, v)
    ensures n >= 128 ==> StandsAt(s, i + 1, EncodedLength(n / 128))
  {
    assert s[i] == s[i..i + |EncodedLength(n)|][0];
    DigitWeight(i, n, s[i]);
    if n >= 128 {
      StandsBoth(s, i, [n % 128 + 128], EncodedLength(n / 128));
    }
  }

  /** Reading an encoded length gives back the length, wherever its digits start. */
  lemma {:induction false} LengthReadsBack(s: Bytes, i: nat, value: nat, n: nat)
    requires i < 4 && value < Weight(i) && value + n * Weight(i) <= MaxLength
    requires StandsAt(s, i, EncodedLength(n)) && (i > 0 ==> n > 0)
    ensures LengthFrom(s, i, value) == Length(value + n * Weight(i), i + |EncodedLength(n)|)
    ensures i + |EncodedLength(n)| <= 4
    decreases 4 - i
  {
    var w, digit, more := Weight(i), n % 128, n / 128;
    DigitWeight(i, n, digit);
    DigitBound(digit, w, value);
    DigitBound(more, Weight(i + 1), 0);
    ReadDigit(s, i, value, n);
    if n >= 128 {
      MoreDigitsFit(i, n);
      LengthReadsBack(s, i + 1, value + digit * w, more);
    }
  }

  lemma DigitBound(d: nat, w: nat, value: nat)
    requires value < w
    ensures 0 <= d * w
    ensures d < 128 ==> value + d * w < 128 * w
  {
    assert d < 128 ==> d * w <= 127 * w;
  }

  /** A length survives encoding and decoding exactly when it is at most 268435455. */
  lemma LengthRoundTrip(n: nat, rest: Bytes)
    ensures LengthOf(EncodedLength(n) + rest) == Length(n, |EncodedLength(n)|) <==> n <= MaxLength
    ensures n <= MaxLength ==> |EncodedLength(n)| <= 4
  {
    if n <= MaxLength {
      StandsInFront(EncodedLength(n), rest);
      LengthReadsBack(EncodedLength(n) + rest, 0, 0, n);
    }
  }

  /** The number of digits an encoding takes. */
  lemma LengthDigits(n: nat)
    ensures n < 0x80 <==> |EncodedLength(n)| <= 1
    ensures n < 0x4000 <==> |EncodedLength(n)| <= 2
    ensures n < 0x20_0000 <==> |EncodedLength(n)| <= 3
  {
    if n >= 128 {
      var m := n / 128;
      assert |EncodedLength(n)| == 1 + |EncodedLength(m)|;
      if m >= 128 {
        assert |EncodedLength(m)| == 1 + |EncodedLength(m / 128)|;
      }
    }
  }

  /** Longer encodings are accepted too, but none shorter than the one that is written. */
  lemma EncodingIsShortest(s: Bytes)
    requires LengthOf(s).Length?
    ensures |EncodedLength(LengthOf(s).value)| <= LengthOf(s).size
  {
    var r := LengthOf(s);
    LengthDigits(r.value);
    LengthRoundTrip(r.value, []);
    if r.size <= 3 {
      SizeBounds(s, 0, 0);
    }
  }

  lemma {:induction false} SizeBounds(s: Bytes, i: nat, value: nat)
    requires i <= 3 && value < Weight(i) && LengthFrom(s, i, value).Length? && LengthFrom(s, i, value).size <= 3
    ensures LengthFrom(s, i, value).value < Weight(LengthFrom(s, i, value).size)
    decreases |s| - i
  {
    if s[i] >= 128 {
      SizeBounds(s, i + 1, value + Shifted(s[i], i));
    }
  }

  // ---------- Exactly what is accepted, and as what ----------

  /** The byte at index n is the first without the continuation bit. */
  predicate EndsAt(s: Bytes, n: nat) {
    n < |s| && s[n] < 128 && forall j | 0 <= j < n :: s[j] >= 128
  }

  /** The number that the bytes i..n spell: seven bits each, the lowest first, however many there are. */
  function Spelled(s: Bytes, i: nat, n: nat): nat
    requires n < |s|
    decreases n + 1 - i
  {
    if i > n then 0 else s[i] % 128 + 128 * Spelled(s, i + 1, n)
  }

  /** No set bit lies past bit 31. */
  predicate FitsWord(s: Bytes, n: nat)
    requires n < |s|
  {
    (n >= 4 ==> s[4] % 128 < 16) && forall j | 5 <= j <= n :: s[j] % 128 == 0
  }

  /** From the fifth byte on nothing is added. */
  lemma {:induction false} TailReads(s: Bytes, i: nat, n: nat, value: nat)
    requires 5 <= i <= n && EndsAt(s, n) && value <= MaxLength
    ensures LengthFrom(s, i, value) == Length(value, n + 1)
    decreases n - i
  {
    if i < n {
      TailReads(s, i + 1, n, value);
    }
  }

  /** Up to the fourth byte everything counts and fits. */
  lemma {:induction false} HeadReads(s: Bytes, i: nat, n: nat, value: nat)
    requires i <= n <= 3 && EndsAt(s, n) && value < Weight(i)
    ensures LengthFrom(s, i, value) == Length(value + Weight(i) * Spelled(s, i, n), n + 1)
    decreases n - i
  {
    DigitWeight(i, s[i] % 128, s[i]);
    DigitBound(s[i] % 128, Weight(i), value);
    if i < n {
      var v := value + s[i] % 128 * Weight(i);
      HeadReads(s, i + 1, n, v);
      Distribute(Weight(i), s[i] % 128, Spelled(s, i + 1, n));
    }
  }

  lemma Distribute(w: nat, d: nat, rest: nat)
    ensures w * (d + 128 * rest) == d * w + 128 * w * rest
  {
  }

  /** The first four bytes, with more to come. */
  lemma FourRead(s: Bytes)
    requires |s| > 3 && forall j | 0 <= j < 4 :: s[j] >= 128
    ensures Spelled(s, 0, 3) <= MaxLength
    ensures LengthOf(s) == LengthFrom(s, 4, Spelled(s, 0, 3))
  {
    var d0: int, d1: int, d2: int, d3: int := s[0] % 128, s[1] % 128, s[2] % 128, s[3] % 128;
    assert Spelled(s, 3, 3) == d3 && Spelled(s, 2, 3) == d2 + 128 * d3;
    assert Spelled(s, 1, 3) == d1 + 128 * (d2 + 128 * d3);
    assert Spelled(s, 0, 3) == d0 + 0x80 * d1 + 0x4000 * d2 + 0x20_0000 * d3;
    assert LengthFrom(s, 1, d0) == LengthFrom(s, 2, d0 + 0x80 * d1);
    assert LengthFrom(s, 3, d0 + 0x80 * d1 + 0x4000 * d2) == LengthFrom(s, 4, Spelled(s, 0, 3));
  }

  /** With five bytes or more, the fifth must leave bits 28 to 31 clear; nothing behind it matters. */
  lemma LongReads(s: Bytes, n: nat)
    requires n >= 4 && EndsAt(s, n)
    ensures LengthOf(s) == if s[4] % 16 == 0 then Length(Spelled(s, 0, 3), n + 1) else BadLength(MalformedLength)
  {
    FourRead(s);
    FifthReads(s, Spelled(s, 0, 3));
    if s[4] % 16 == 0 && n > 4 {
      TailReads(s, 5, n, Spelled(s, 0, 3));
    }
  }

  lemma Nibble(b: byte)
    ensures b % 128 % 16 == b % 16
  {
    assert b % 128 == b - 128 * (b / 128) && b == 16 * (b / 16) + b % 16;
  }

  lemma FifthReads(s: Bytes, value: nat)
    requires |s| > 4 && value <= MaxLength
    ensures LengthFrom(s, 4, value) ==
            if s[4] % 16 != 0 then BadLength(MalformedLength)
            else if s[4] < 128 then Length(value, 5)
            else LengthFrom(s, 5, value)
  {
    Nibble(s[4]);
  }

  lemma {:induction false} AcceptedEnds(s: Bytes, i: nat, value: nat)
    requires value <= MaxLength && LengthFrom(s, i, value).Length?
    ensures var n := LengthFrom(s, i, value).size - 1;
            i <= n < |s| && s[n] < 128 && forall j | i <= j < n :: s[j] >= 128
    decreases |s| - i
  {
    if s[i] >= 128 {
      AcceptedEnds(s, i + 1, value + Shifted(s[i], i));
    }
  }

  /**
   What is accepted, exactly: a string whose first byte without continuation bit, at any index n,
   is among the first four, or whose fifth byte has its low four bits clear.  The value is what the
   first four bytes spell.
   */
  lemma AcceptedExactly(s: Bytes, n: nat)
    requires EndsAt(s, n)
    ensures LengthOf(s).Length? <==> n < 4 || s[4] % 16 == 0
    ensures LengthOf(s).Length? ==> LengthOf(s) == Length(Spelled(s, 0, if n < 4 then n else 3), n + 1)
  {
    if n < 4 {
      HeadReads(s, 0, n, 0);
    } else {
      LongReads(s, n);
    }
  }

  /** Nothing without an end is accepted; so acceptance is decided by AcceptedExactly. */
  lemma AcceptedHasEnd(s: Bytes)
    requires LengthOf(s).Length?
    ensures EndsAt(s, LengthOf(s).size - 1)
  {
    AcceptedEnds(s, 0, 0);
  }

  /** Section 1.5.5 allows four bytes: an accepted encoding keeps to them exactly when it ends among the first four. */
  lemma WithinFourBytes(s: Bytes)
    requires LengthOf(s).Length?
    ensures LengthOf(s).size <= 4 <==> exists i :: 0 <= i < 4 && i < |s| && s[i] < 128
  {
    AcceptedHasEnd(s);
    var n := LengthOf(s).size - 1;
    assert n <= 3 ==> s[n] < 128;
  }

  lemma SpelledSplit(s: Bytes, n: nat)
    requires 4 <= n < |s|
    ensures Spelled(s, 0, n) == Spelled(s, 0, 3) + 0x1000_0000 * Spelled(s, 4, n)
  {
    var rest, end := Spelled(s, 4, n), Spelled(s, 4, 3);
    assert end == 0;
    assert Spelled(s, 2, n) == Spelled(s, 2, 3) + 0x4000 * rest by {
      assert Spelled(s, 3, n) == Spelled(s, 3, 3) + 128 * rest;
    }
    assert Spelled(s, 1, n) == Spelled(s, 1, 3) + 0x20_0000 * rest;
  }

  lemma {:induction false} SpelledZero(s: Bytes, i: nat, n: nat)
    requires n < |s|
    ensures Spelled(s, i, n) == 0 <==> forall j | i <= j <= n :: s[j] % 128 == 0
    decreases n + 1 - i
  {
    if i <= n {
      SpelledZero(s, i + 1, n);
    }
  }

  lemma SpelledTail(s: Bytes, n: nat)
    requires 4 <= n < |s| && s[4] % 16 == 0
    ensures Spelled(s, 4, n) % 16 == 0
    ensures Spelled(s, 4, n) == 0 <==> FitsWord(s, n)
  {
    var low: int := s[4] % 128;
    assert low % 16 == 0;
    assert Spelled(s, 4, n) == low + 128 * Spelled(s, 5, n);
    SpelledZero(s, 5, n);
  }

  lemma WordOf(head: nat, tail: nat)
    requires head <= MaxLength && tail % 16 == 0
    ensures (head + 0x1000_0000 * tail) % 0x1_0000_0000 == head
    ensures head == head + 0x1000_0000 * tail <==> tail == 0
  {
    var k := tail / 16;
    assert head + 0x1000_0000 * tail == head + 0x1_0000_0000 * k;
  }

  /**
   The accepted value is the spelled number modulo 2^32, and the spelled number itself exactly when
   no set bit lies past bit 31.
   */
  lemma AcceptedValue(s: Bytes)
    requires LengthOf(s).Length?
    ensures var n := LengthOf(s).size - 1;
            && LengthOf(s).value == Spelled(s, 0, n) % 0x1_0000_0000
            && (LengthOf(s).value == Spelled(s, 0, n) <==> FitsWord(s, n))
  {
    AcceptedHasEnd(s);
    var n := LengthOf(s).size - 1;
    AcceptedExactly(s, n);
    if n >= 4 {
      SpelledSplit(s, n);
      SpelledTail(s, n);
      FourRead(s);
      WordOf(Spelled(s, 0, 3), Spelled(s, 4, n));
    }
  }

  /** The digits of a spelled number are its encoding, when the last one is not a padding zero. */
  lemma {:induction false} SpelledDigits(s: Bytes, i: nat, n: nat)
    requires i <= n && EndsAt(s, n) && (i == n || s[n] != 0)
    ensures EncodedLength(Spelled(s, i, n)) == s[i..n + 1]
    decreases n - i
  {
    var d, rest := s[i] % 128, Spelled(s, i + 1, n);
    if i < n {
      SpelledZero(s, i + 1, n);
      assert s[n] % 128 != 0;
      SpelledDigits(s, i + 1, n);
      assert (d + 128 * rest) / 128 == rest && (d + 128 * rest) % 128 == d;
      assert s[i..n + 1] == [s[i]] + s[i + 1..n + 1];
    } else {
      assert s[i..n + 1] == [s[i]];
    }
  }

  lemma {:induction false} LastDigit(n: nat)
    ensures var e := EncodedLength(n); e[|e| - 1] != 0 || |e| == 1
  {
    if n >= 128 {
      LastDigit(n / 128);
      var tail := EncodedLength(n / 128);
      assert EncodedLength(n)[|tail|] == tail[|tail| - 1];
      SingleDigit(n / 128);
    }
  }

  lemma SingleDigit(n: nat)
    ensures |EncodedLength(n)| == 1 ==> EncodedLength(n) == [n]
  {
    if n >= 128 {
      assert |EncodedLength(n / 128)| > 0;
    }
  }

  /**
   An accepted encoding is the one the encoder writes for its value exactly when it takes at most
   four bytes and is not padded with a zero byte.
   */
  lemma CanonicalExactly(s: Bytes)
    requires LengthOf(s).Length?
    ensures var r := LengthOf(s);
            s[..r.size] == EncodedLength(r.value) <==> r.size <= 4 && (r.size == 1 || s[r.size - 1] != 0)
  {
    AcceptedHasEnd(s);
    var r := LengthOf(s);
    var n := r.size - 1;
    AcceptedExactly(s, n);
    LengthRoundTrip(r.value, []);
    LastDigit(r.value);
    if r.size <= 4 && (r.size == 1 || s[n] != 0) {
      SpelledDigits(s, 0, n);
    }
    if s[..r.size] == EncodedLength(r.value) {
      assert s[n] == EncodedLength(r.value)[n];
    }
  }

  /** Padding beyond four bytes is accepted. */
  lemma OverlongAccepted()
    ensures LengthOf([0x81, 0x80, 0x80, 0x80, 0x80, 0x00]) == Length(1, 6)
  {
    var s: Bytes := [0x81, 0x80, 0x80, 0x80, 0x80, 0x00];
    assert EndsAt(s, 5);
    AcceptedExactly(s, 5);
    SpelledOne(s);
  }

  /** So is 2^32 + 1, as 1: its high bit is shifted out. */
  lemma HighBitsLost()
    ensures LengthOf([0x81, 0x80, 0x80, 0x80, 0x10]) == Length(1, 5)
  {
    var s: Bytes := [0x81, 0x80, 0x80, 0x80, 0x10];
    assert EndsAt(s, 4);
    AcceptedExactly(s, 4);
    SpelledOne(s);
  }

  lemma SpelledOne(s: Bytes)
    requires |s| > 3 && s[0] == 0x81 && s[1] == s[2] == s[3] == 0x80
    ensures Spelled(s, 0, 3) == 1
  {
    SpelledZero(s, 1, 3);
  }

  // ---------- Fixed-width integers, binary data, strings ----------

  function EncodeUint16(n: uint16): Bytes {
    [n / 0x100, n % 0x100]
  }

  function EncodeUint32(n: uint32): Bytes {
    [n / 0x100_0000, n / 0x1_0000 % 0x100, n / 0x100 % 0x100, n % 0x100]
  }

  function EncodeBool(b: bool): byte {
    if b then 1 else 0
  }

  /** The length is cut off to sixteen bits. */
  function EncodeBytes(val: Bytes): Bytes {
    EncodeUint16(|val| % 0x1_0000) + val
  }

  function DecodeByte(buf: Bytes, offset: nat): Decoded<byte> {
    if |buf| <= offset then Failed(OffsetOutOfRange) else Decoded(buf[offset], offset + 1)
  }

  function DecodeByteBool(buf: Bytes, offset: nat): Decoded<bool> {
    if |buf| <= offset then Failed(OffsetOutOfRange) else Decoded(buf[offset] % 2 > 0, offset + 1)
  }

  function DecodeUint16(buf: Bytes, offset: nat): Decoded<uint16> {
    if |buf| < offset + 2 then Failed(OffsetOutOfRange)
    else
      var high: int := buf[offset];
      Decoded(high * 0x100 + buf[offset + 1], offset + 2)
  }

  function DecodeUint32(buf: Bytes, offset: nat): Decoded<uint32> {
    if |buf| < offset + 4 then Failed(OffsetOutOfRange)
    else
      var (a: int, b: int, c: int) := (buf[offset], buf[offset + 1], buf[offset + 2]);
      Decoded(a * 0x100_0000 + b * 0x1_0000 + c * 0x100 + buf[offset + 3], offset + 4)
  }

  function DecodeBytes(buf: Bytes, offset: nat): Decoded<Bytes> {
    match DecodeUint16(buf, offset)
    case Failed(e) => Failed(e)
    case Decoded(length, next) =>
      if next + length > |buf| then Failed(OffsetOutOfRange) else Decoded(buf[next..next + length], next + length)
  }

  predicate IsContinuation(b: byte) {
    0x80 <= b <= 0xBF
  }

  /** The size of the UTF-8 encoded character in front of s, 0 when it is malformed. */
  function CharSize(s: Bytes): (n: nat)
    requires s != []
    ensures n <= |s|
  {
    var b := s[0];
    if b < 0x80 then 1
    else if 0xC2 <= b <= 0xDF && |s| >= 2 && IsContinuation(s[1]) then 2
    else if 0xE0 <= b <= 0xEF && |s| >= 3 && IsContinuation(s[1]) && IsContinuation(s[2])
            && (b == 0xE0 ==> s[1] >= 0xA0) && (b == 0xED ==> s[1] <= 0x9F) then 3
    else if 0xF0 <= b <= 0xF4 && |s| >= 4 && IsContinuation(s[1]) && IsContinuation(s[2]) && IsContinuation(s[3])
            && (b == 0xF0 ==> s[1] >= 0x90) && (b == 0xF4 ==> s[1] <= 0x8F) then 4
    else 0
  }

  predicate WellFormedUTF8(s: Bytes)
    decreases |s|
  {
    s == [] || (CharSize(s) > 0 && WellFormedUTF8(s[CharSize(s)..]))
  }

  /** A UTF-8 encoded string without the null character. */
  predicate ValidUTF8(s: Bytes) {
    WellFormedUTF8(s) && 0 !in s
  }

  // ---------- What a string is ----------

  /** A Unicode scalar value: a code point that is no surrogate. */
  type Scalar = c: int | 0 <= c < 0xD800 || 0xE000 <= c < 0x11_0000

  /** UTF-8: one to four bytes, six bits in each but the first. */
  function EncodeChar(c: Scalar): (s: Bytes)
    ensures 1 <= |s| <= 4
  {
    if c < 0x80 then [c]
    else if c < 0x800 then [0xC0 + c / 0x40, 0x80 + c % 0x40]
    else if c < 0x1_0000 then [0xE0 + c / 0x1000, 0x80 + c / 0x40 % 0x40, 0x80 + c % 0x40]
    else [0xF0 + c / 0x4_0000, 0x80 + c / 0x1000 % 0x40, 0x80 + c / 0x40 % 0x40, 0x80 + c % 0x40]
  }

  function EncodeText(text: seq<Scalar>): Bytes
    decreases |text|
  {
    if text == [] then [] else EncodeChar(text[0]) + EncodeText(text[1..])
  }

  lemma CharStands(c: Scalar, rest: Bytes)
    ensures CharSize(EncodeChar(c) + rest) == |EncodeChar(c)|
    ensures (EncodeChar(c) + rest)[|EncodeChar(c)|..] == rest
  {
    var s := EncodeChar(c) + rest;
    var high := c / 0x1000;
    if 0x800 <= c < 0x1_0000 {
      assert c / 0x40 / 0x40 == high && c / 0x40 == 0x40 * high + c / 0x40 % 0x40;
    } else if c >= 0x1_0000 {
      assert high / 0x40 == c / 0x4_0000 && high == 0x40 * (c / 0x4_0000) + high % 0x40;
    }
  }

  /** The character that stands in front of well-formed bytes. */
  lemma CharInFront(s: Bytes) returns (c: Scalar)
    requires s != [] && CharSize(s) > 0
    ensures EncodeChar(c) == s[..CharSize(s)]
  {
    var n := CharSize(s);
    var b0: int := s[0];
    if n == 1 {
      c := b0;
    } else if n == 2 {
      c := TwoByteChar(b0 - 0xC0, s[1] - 0x80);
    } else if n == 3 {
      c := ThreeByteChar(b0 - 0xE0, s[1] - 0x80, s[2] - 0x80);
    } else {
      c := FourByteChar(b0 - 0xF0, s[1] - 0x80, s[2] - 0x80, s[3] - 0x80);
    }
  }

  lemma TwoByteChar(a: nat, b: nat) returns (c: Scalar)
    requires 2 <= a < 0x20 && b < 0x40
    ensures EncodeChar(c) == [0xC0 + a, 0x80 + b]
  {
    c := a * 0x40 + b;
  }

  lemma ThreeByteChar(a: nat, b: nat, d: nat) returns (c: Scalar)
    requires a < 0x10 && b < 0x40 && d < 0x40 && (a == 0 ==> b >= 0x20) && (a == 0xD ==> b < 0x20)
    ensures EncodeChar(c) == [0xE0 + a, 0x80 + b, 0x80 + d]
  {
    var high := a * 0x40 + b;
    c := high * 0x40 + d;
    assert c / 0x40 == high && c / 0x1000 == high / 0x40;
  }

  lemma FourByteChar(a: nat, b: nat, d: nat, e: nat) returns (c: Scalar)
    requires a <= 4 && b < 0x40 && d < 0x40 && e < 0x40 && (a == 0 ==> b >= 0x10) && (a == 4 ==> b < 0x10)
    ensures EncodeChar(c) == [0xF0 + a, 0x80 + b, 0x80 + d, 0x80 + e]
  {
    var high := a * 0x40 + b;
    var mid := high * 0x40 + d;
    c := mid * 0x40 + e;
    assert c / 0x40 == mid && mid / 0x40 == high && c / 0x1000 == high && c / 0x4_0000 == high / 0x40;
  }

  lemma {:induction false} TextIsWellFormed(text: seq<Scalar>)
    ensures WellFormedUTF8(EncodeText(text))
    ensures 0 in EncodeText(text) <==> 0 in text
    decreases |text|
  {
    if text != [] {
      CharStands(text[0], EncodeText(text[1..]));
      TextIsWellFormed(text[1..]);
      NullChar(text[0]);
      assert text == [text[0]] + text[1..];
    }
  }

  lemma NullChar(c: Scalar)
    ensures 0 in EncodeChar(c) <==> c == 0
  {
    if c == 0 {
      assert EncodeChar(c)[0] == 0;
    }
  }

  lemma {:induction false} WellFormedIsText(s: Bytes) returns (text: seq<Scalar>)
    requires WellFormedUTF8(s)
    ensures EncodeText(text) == s
    decreases |s|
  {
    if s == [] {
      text := [];
    } else {
      var c := CharInFront(s);
      var rest := WellFormedIsText(s[CharSize(s)..]);
      text := [c] + rest;
      assert text[1..] == rest;
      assert s == s[..CharSize(s)] + s[CharSize(s)..];
    }
  }

  /** A string is accepted exactly when it is the UTF-8 encoding of some text without the null character. */
  lemma StringExactly(s: Bytes)
    ensures ValidUTF8(s) <==> exists text :: EncodeText(text) == s && 0 !in text
  {
    if ValidUTF8(s) {
      var text := WellFormedIsText(s);
      TextIsWellFormed(text);
      assert EncodeText(text) == s && 0 !in text;
    }
    if text :| EncodeText(text) == s && 0 !in text {
      TextIsWellFormed(text);
    }
  }

  /** The high byte comes first. */
  lemma HighByteFirst(n: uint16, w: uint32)
    ensures var s: seq<int> := EncodeUint16(n); |s| == 2 && s[0] * 0x100 + s[1] == n
    ensures var s: seq<int> := EncodeUint32(w); |s| == 4 && ((s[0] * 0x100 + s[1]) * 0x100 + s[2]) * 0x100 + s[3] == w
  {
    var h: int := w / 0x1_0000;
    assert w / 0x100_0000 == h / 0x100 && w / 0x100 / 0x100 == h;
    assert w / 0x100 == h * 0x100 + w / 0x100 % 0x100;
  }

  function DecodeString(buf: Bytes, offset: nat): Decoded<Bytes> {
    match DecodeBytes(buf, offset)
    case Failed(e) => Failed(e)
    case Decoded(s, next) => if ValidUTF8(s) then Decoded(s, next) else Failed(InvalidUTF8)
  }

  lemma Uint16ReadsBack(buf: Bytes, offset: nat, n: uint16)
    requires StandsAt(buf, offset, EncodeUint16(n))
    ensures DecodeUint16(buf, offset) == Decoded(n, offset + 2)
  {
    var s := buf[offset..offset + 2];
    assert buf[offset] == s[0] && buf[offset + 1] == s[1];
  }

  lemma Uint32Digits(n: uint32)
    ensures n == n / 0x100_0000 * 0x100_0000 + n / 0x1_0000 % 0x100 * 0x1_0000 + n / 0x100 % 0x100 * 0x100 + n % 0x100
  {
    var b, c := n / 0x100, n / 0x1_0000;
    assert b / 0x100 == c && c / 0x100 == n / 0x100_0000;
    assert n == 0x100 * b + n % 0x100 && b == 0x100 * c + b % 0x100 && c == 0x100 * (c / 0x100) + c % 0x100;
  }

  lemma Uint32ReadsBack(buf: Bytes, offset: nat, n: uint32)
    requires StandsAt(buf, offset, EncodeUint32(n))
    ensures DecodeUint32(buf, offset) == Decoded(n, offset + 4)
  {
    var s := buf[offset..offset + 4];
    assert buf[offset] == s[0] && buf[offset + 1] == s[1] && buf[offset + 2] == s[2] && buf[offset + 3] == s[3];
    Uint32Digits(n);
  }

  lemma ByteReadsBack(buf: Bytes, offset: nat, b: byte)
    requires StandsAt(buf, offset, [b])
    ensures DecodeByte(buf, offset) == Decoded(b, offset + 1)
  {
    assert buf[offset] == buf[offset..offset + 1][0];
  }

  /** Binary data is read back when its length fits sixteen bits. */
  lemma BytesReadBack(buf: Bytes, offset: nat, val: Bytes)
    requires StandsAt(buf, offset, EncodeBytes(val)) && |val| < 0x1_0000
    ensures DecodeBytes(buf, offset) == Decoded(val, offset + 2 + |val|)
  {
    StandsBoth(buf, offset, EncodeUint16(|val|), val);
    Uint16ReadsBack(buf, offset, |val|);
  }

  /** Longer data is never read back. */
  lemma LongBytesAreLost(val: Bytes, rest: Bytes)
    ensures DecodeBytes(EncodeBytes(val) + rest, 0) == Decoded(val, 2 + |val|) <==> |val| < 0x1_0000
  {
    var buf := EncodeBytes(val) + rest;
    StandsInFront(EncodeBytes(val), rest);
    if |val| < 0x1_0000 {
      BytesReadBack(buf, 0, val);
    } else {
      StandsBoth(buf, 0, EncodeUint16(|val| % 0x1_0000), val);
      Uint16ReadsBack(buf, 0, |val| % 0x1_0000);
    }
  }

  lemma StringReadsBack(buf: Bytes, offset: nat, s: Bytes)
    requires StandsAt(buf, offset, EncodeBytes(s)) && |s| < 0x1_0000 && ValidUTF8(s)
    ensures DecodeString(buf, offset) == Decoded(s, offset + 2 + |s|)
  {
    BytesReadBack(buf, offset, s);
  }
}
