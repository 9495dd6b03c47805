/** UTF-8 as Python's `str.encode()` and strict `bytes.decode()` use it:
    well-formed byte sequences are exactly those of the Unicode Standard,
    table 3-7 (no overlong forms, no surrogates, nothing above U+10FFFF). */
module Utf8 {
  import opened Wrappers

  type Byte = b: int | 0 <= b < 256

  /** The one to four bytes that encode one Unicode scalar value. */
  function EncodeChar(c: char): (r: seq<Byte>)
    ensures 1 <= |r| <= 4
    ensures |r| == 1 <==> c as int < 0x80
    ensures |r| == 1 ==> r[0] == c as int
    ensures |r| > 1 ==> forall i :: 0 <= i < |r| ==> r[i] >= 0x80
  {
    var v := c as int;
    if v < 0x80 then [v]
    else if v < 0x800 then [0xC0 + v / 64, 0x80 + v % 64]
    else if v < 0x10000 then [0xE0 + v / 4096, 0x80 + (v / 64) % 64, 0x80 + v % 64]
    else [0xF0 + v / 262144, 0x80 + (v / 4096) % 64, 0x80 + (v / 64) % 64, 0x80 + v % 64]
  }

  /** `s.encode()` for a string of Unicode scalar values (a `char` cannot
      hold a lone surrogate). */
  function Encode(s: string): (r: seq<Byte>)
    ensures |s| <= |r| <= 4 * |s|
  {
    if s == [] then [] else EncodeChar(s[0]) + Encode(s[1..])
  }

  predicate IsContinuation(b: Byte)
  {
    0x80 <= b < 0xC0
  }

  /** How many bytes the sequence led by `b0` has; 0 when `b0` cannot lead. */
  function SequenceLength(b0: Byte): (n: nat)
    ensures n <= 4
  {
    if b0 < 0x80 then 1
    else if 0xC2 <= b0 < 0xE0 then 2
    else if 0xE0 <= b0 < 0xF0 then 3
    else if 0xF0 <= b0 < 0xF5 then 4
    else 0
  }

  /** The range the second byte must fall in, which depends on the lead byte. */
  function SecondLow(b0: Byte): Byte
  {
    if b0 == 0xE0 then 0xA0 else if b0 == 0xF0 then 0x90 else 0x80
  }

  function SecondHigh(b0: Byte): Byte
  {
    if b0 == 0xED then 0x9F else if b0 == 0xF4 then 0x8F else 0xBF
  }

  /** `b` starts with one well-formed UTF-8 sequence. */
  predicate WellFormedAt(b: seq<Byte>)
  {
    && |b| >= 1
    && SequenceLength(b[0]) > 0
    && |b| >= SequenceLength(b[0])
    && (SequenceLength(b[0]) >= 2 ==> SecondLow(b[0]) <= b[1] <= SecondHigh(b[0]))
    && (SequenceLength(b[0]) >= 3 ==> IsContinuation(b[2]))
    && (SequenceLength(b[0]) >= 4 ==> IsContinuation(b[3]))
  }

  /** The scalar value the first sequence of `b` encodes. */
  function ScalarValue(b: seq<Byte>): (v: int)
    requires WellFormedAt(b)
    ensures 0 <= v < 0x110000 && !(0xD800 <= v < 0xE000)
  {
    var n := SequenceLength(b[0]);
    var b0: int := b[0];
    if n == 1 then b0
    else if n == 2 then Combine2(b0 - 0xC0, b[1] - 0x80)
    else if n == 3 then Combine3(b0 - 0xE0, b[1] - 0x80, b[2] - 0x80)
    else Combine4(b0 - 0xF0, b[1] - 0x80, b[2] - 0x80, b[3] - 0x80)
  }

  /** The scalar value made of a lead part and 6-bit continuation parts. */
  function Combine2(x0: int, x1: int): int
  {
    x0 * 64 + x1
  }

  function Combine3(x0: int, x1: int, x2: int): int
  {
    x0 * 4096 + x1 * 64 + x2
  }

  function Combine4(x0: int, x1: int, x2: int, x3: int): int
  {
    x0 * 262144 + x1 * 4096 + x2 * 64 + x3
  }

  /** Splitting a value into 6-bit parts and combining them again are inverse. */
  lemma Split2(v: int)
    requires 0x80 <= v < 0x800
    ensures 2 <= v / 64 < 32 && Combine2(v / 64, v % 64) == v
  {
  }

  lemma Split3(v: int)
    requires 0x800 <= v < 0x10000 && !(0xD800 <= v < 0xE000)
    ensures var x0, x1 := v / 4096, (v / 64) % 64;
      && 0 <= x0 < 16
      && (x0 == 0 ==> x1 >= 32)
      && (x0 == 13 ==> x1 < 32)
      && Combine3(x0, x1, v % 64) == v
  {
  }

  lemma Split4(v: int)
    requires 0x10000 <= v < 0x110000
    ensures var x0, x1 := v / 262144, (v / 4096) % 64;
      && 0 <= x0 <= 4
      && (x0 == 0 ==> x1 >= 16)
      && (x0 == 4 ==> x1 < 16)
      && Combine4(x0, x1, (v / 64) % 64, v % 64) == v
  {
    var w := v / 4096;
    assert v == w * 4096 + (v / 64) % 64 * 64 + v % 64 by {
      Split3Any(v);
    }
    assert w == v / 262144 * 64 + w % 64 by {
      assert w / 64 == v / 262144;
    }
  }

  /** Any natural number is its 4096s, its 64s below that, and its rest. */
  lemma Split3Any(v: int)
    requires 0 <= v
    ensures v == v / 4096 * 4096 + (v / 64) % 64 * 64 + v % 64
  {
    assert v / 64 / 64 == v / 4096;
  }

  lemma Parts2(x0: int, x1: int)
    requires 0 <= x1 < 64
    ensures Combine2(x0, x1) / 64 == x0 && Combine2(x0, x1) % 64 == x1
  {
  }

  lemma Parts3(x0: int, x1: int, x2: int)
    requires 0 <= x1 < 64 && 0 <= x2 < 64
    ensures var v := Combine3(x0, x1, x2);
      v / 4096 == x0 && (v / 64) % 64 == x1 && v % 64 == x2
  {
    var v := Combine3(x0, x1, x2);
    assert v == (x0 * 64 + x1) * 64 + x2;
    Parts2(x0 * 64 + x1, x2);
    Parts2(x0, x1);
    assert v / 4096 == (v / 64) / 64;
  }

  lemma Parts4(x0: int, x1: int, x2: int, x3: int)
    requires 0 <= x1 < 64 && 0 <= x2 < 64 && 0 <= x3 < 64
    ensures var v := Combine4(x0, x1, x2, x3);
      v / 262144 == x0 && (v / 4096) % 64 == x1 && (v / 64) % 64 == x2 && v % 64 == x3
  {
    var v := Combine4(x0, x1, x2, x3);
    assert v == Combine3(x0 * 64 + x1, x2, x3);
    Parts3(x0 * 64 + x1, x2, x3);
    Parts2(x0, x1);
    assert v / 262144 == (v / 4096) / 64;
  }

  /** `b.decode()`; `None` where Python raises `UnicodeDecodeError`. */
  function Decode(b: seq<Byte>): (r: Option<string>)
    ensures r.Some? ==> |r.value| <= |b|
    decreases |b|
  {
    if b == [] then Some([])
    else if !WellFormedAt(b) then None
    else match Decode(b[SequenceLength(b[0])..])
      case None => None
      case Some(rest) => Some([ScalarValue(b) as char] + rest)
  }

  /** Encoding one character yields one well-formed sequence that decodes
      back to it, whatever follows. */
  lemma EncodeCharWellFormed(c: char, rest: seq<Byte>)
    ensures WellFormedAt(EncodeChar(c) + rest)
    ensures SequenceLength(EncodeChar(c)[0]) == |EncodeChar(c)|
    ensures ScalarValue(EncodeChar(c) + rest) == c as int
  {
    var v := c as int;
    if 0x80 <= v < 0x800 {
      Split2(v);
    } else if 0x800 <= v < 0x10000 {
      Split3(v);
    } else if 0x10000 <= v {
      Split4(v);
    }
  }

  /** Decoding undoes encoding. */
  lemma {:induction false} DecodeEncode(s: string)
    ensures Decode(Encode(s)) == Some(s)
  {
    if s != [] {
      var e := EncodeChar(s[0]);
      EncodeCharWellFormed(s[0], Encode(s[1..]));
      assert (e + Encode(s[1..]))[|e|..] == Encode(s[1..]);
      DecodeEncode(s[1..]);
      assert [s[0]] + s[1..] == s;
    }
  }

  /** Re-encoding a decoded sequence gives back exactly its bytes. */
  lemma EncodeScalarValue(b: seq<Byte>)
    requires WellFormedAt(b)
    ensures EncodeChar(ScalarValue(b) as char) == b[..SequenceLength(b[0])]
  {
    var n := SequenceLength(b[0]);
    var b0: int := b[0];
    if n == 2 {
      Parts2(b0 - 0xC0, b[1] - 0x80);
    } else if n == 3 {
      Parts3(b0 - 0xE0, b[1] - 0x80, b[2] - 0x80);
    } else if n == 4 {
      Parts4(b0 - 0xF0, b[1] - 0x80, b[2] - 0x80, b[3] - 0x80);
    }
  }

  /** Encoding undoes decoding: a byte string decodes only to the text that
      encodes to it. */
  lemma {:induction false} EncodeDecode(b: seq<Byte>)
    requires Decode(b).Some?
    ensures Encode(Decode(b).value) == b
    decreases |b|
  {
    if b != [] {
      var n := DecodeHead(b);
      var c := ScalarValue(b) as char;
      var rest := Decode(b[n..]).value;
      calc {
        Encode(Decode(b).value);
        Encode([c] + rest);
        { EncodeHead(c, rest); }
        EncodeChar(c) + Encode(rest);
        { EncodeScalarValue(b); EncodeDecode(b[n..]); }
        b[..n] + b[n..];
        b;
      }
    }
  }

  /** A non-empty byte string that decodes starts with a well-formed
      sequence of `n` bytes, and the rest decodes too. */
  lemma DecodeHead(b: seq<Byte>) returns (n: nat)
    requires b != [] && Decode(b).Some?
    ensures WellFormedAt(b) && n == SequenceLength(b[0]) && 0 < n <= |b|
    ensures Decode(b[n..]).Some?
    ensures Decode(b).value == [ScalarValue(b) as char] + Decode(b[n..]).value
  {
    n := SequenceLength(b[0]);
  }

  lemma EncodeHead(c: char, rest: string)
    ensures Encode([c] + rest) == EncodeChar(c) + Encode(rest)
  {
    assert ([c] + rest)[1..] == rest;
  }

  lemma {:induction false} EncodeAppend(a: string, b: string)
    ensures Encode(a + b) == Encode(a) + Encode(b)
  {
    if a != [] {
      assert (a + b)[1..] == a[1..] + b;
      EncodeAppend(a[1..], b);
    } else {
      assert a + b == b;
    }
  }

  /** The line-feed byte 10 occurs in the encoding of `s` exactly when `s`
      contains a line feed: no multi-byte sequence uses bytes below 0x80. */
  lemma {:induction false} NewlineByteIffNewlineChar(s: string)
    ensures 10 in Encode(s) <==> '\n' in s
  {
    if s != [] {
      NewlineByteIffNewlineChar(s[1..]);
      assert s == [s[0]] + s[1..];
      assert 10 in EncodeChar(s[0]) <==> s[0] == '\n';
    }
  }
}
