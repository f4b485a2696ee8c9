/** UTF-8 as written and read here (section 3 of RFC 3629, and a five-byte form that is only written).
    Masks and shifts on bytes are written as quotients and remainders by powers of two. */
module Utf8 {
  type Byte = b: int | 0 <= b < 256

  type Bytes = seq<Byte>

  type Code = c: int | 0 <= c < 0x200000

  const NOT_UTF8 := -1

  /** A code and the number of bytes it takes, or NOT_UTF8. */
  datatype Decoded = Decoded(code: int, bytes: int)

  /** The byte at i of a C string: behind its end there is the terminating NUL. */
  function ByteAt(s: Bytes, i: nat): Byte {
    if i < |s| then s[i] else 0
  }

  function IsTail(b: Byte): bool {
    b / 64 == 2
  }

  function CharSize(first: Byte): int {
    if first < 0x80 then 1
    else if first / 32 == 6 then 2
    else if first / 16 == 14 then 3
    else if first / 8 == 30 then 4
    else NOT_UTF8
  }

  /** The bytes of a code. */
  function Encode(code: nat): Bytes
    requires code < 0x4000000
  {
    if code < 0x80 then [code]
    else if code < 0x800 then [0xC0 + code / 64, 0x80 + code % 64]
    else if code < 0x10000 then [0xE0 + code / 4096, 0x80 + code / 64 % 64, 0x80 + code % 64]
    else if code < 0x200000
        then [0xF0 + code / 262144, 0x80 + code / 4096 % 64, 0x80 + code / 64 % 64, 0x80 + code % 64]
    else [0xF8 + code / 16777216, 0x80 + code / 262144 % 64, 0x80 + code / 4096 % 64, 0x80 + code / 64 % 64,
        0x80 + code % 64]
  }

  /** The code at the head of a C string. A missing continuation byte leaves one byte and no code. */
  function Decode(s: Bytes): Decoded {
    var b := ByteAt(s, 0);
    if b < 0x80 then Decoded(b, 1)
    else if b / 32 == 6 then
      if IsTail(ByteAt(s, 1)) then Decoded(b % 32 * 64 + ByteAt(s, 1) % 64, 2) else Decoded(NOT_UTF8, 1)
    else if b / 16 == 14 then
      if IsTail(ByteAt(s, 1)) && IsTail(ByteAt(s, 2))
          then Decoded((b % 16 * 64 + ByteAt(s, 1) % 64) * 64 + ByteAt(s, 2) % 64, 3)
      else Decoded(NOT_UTF8, 1)
    else if b / 8 == 30 then
      if IsTail(ByteAt(s, 1)) && IsTail(ByteAt(s, 2)) && IsTail(ByteAt(s, 3))
      then Decoded(((b % 8 * 64 + ByteAt(s, 1) % 64) * 64 + ByteAt(s, 2) % 64) * 64 + ByteAt(s, 3) % 64, 4)
      else Decoded(NOT_UTF8, 1)
    else Decoded(NOT_UTF8, NOT_UTF8)
  }

  function EncodeAll(codes: seq<Code>): Bytes {
    if codes == [] then [] else Encode(codes[0]) + EncodeAll(codes[1..])
  }

  // ----- round trips -----

  lemma Split(code: nat)
    ensures code == code / 64 * 64 + code % 64
    ensures code / 64 == code / 4096 * 64 + code / 64 % 64
    ensures code / 4096 == code / 262144 * 64 + code / 4096 % 64
    ensures code < 0x800 ==> code / 64 < 32
    ensures code < 0x10000 ==> code / 4096 < 16
    ensures code < 0x200000 ==> code / 262144 < 8
    ensures code >= 0x80 ==> code / 64 >= 2
  {
  }

  lemma Tail(x: nat)
    requires x < 64
    ensures IsTail(0x80 + x) && (0x80 + x) % 64 == x
  {
  }

  /** What was written is read back, whatever follows: exactly for codes of up to four bytes. */
  lemma ReadBack(code: nat, rest: Bytes)
    requires code < 0x4000000
    ensures Decode(Encode(code) + rest)
          == (if code < 0x200000 then Decoded(code, |Encode(code)|) else Decoded(NOT_UTF8, NOT_UTF8))
    ensures code < 0x200000 ==> CharSize(Encode(code)[0]) == |Encode(code)|
  {
    var s := Encode(code) + rest;
    assert forall i :: 0 <= i < |Encode(code)| ==> ByteAt(s, i) == Encode(code)[i];
    Split(code);
    if code < 0x80 {
    } else if code < 0x800 {
      Tail(code % 64);
      HeadOf(code / 64, 0xC0, 32);
    } else if code < 0x10000 {
      Tail(code % 64);
      Tail(code / 64 % 64);
      HeadOf(code / 4096, 0xE0, 16);
    } else if code < 0x200000 {
      Tail(code % 64);
      Tail(code / 64 % 64);
      Tail(code / 4096 % 64);
      HeadOf(code / 262144, 0xF0, 8);
    } else {
      assert code / 16777216 < 4;
    }
  }

  lemma HeadOf(x: nat, base: nat, width: nat)
    requires x < width
          && ((base == 0xC0 && width == 32) || (base == 0xE0 && width == 16) || (base == 0xF0 && width == 8))
    ensures (base + x) / width == base / width && (base + x) % width == x
  {
  }

  lemma Join(a: nat, x: nat)
    requires x < 64
    ensures (a * 64 + x) / 64 == a && (a * 64 + x) % 64 == x
  {
  }

  lemma TailIs(b: Byte)
    requires IsTail(b)
    ensures b == 0x80 + b % 64
  {
  }

  lemma Back2(a: Byte, b: Byte)
    requires a / 32 == 6 && IsTail(b)
    ensures var code := a % 32 * 64 + b % 64; code < 0x800 && (code >= 0x80 ==> Encode(code) == [a, b])
  {
    TailIs(b);
    Join(a % 32, b % 64);
  }

  lemma Back3(a: Byte, b: Byte, c: Byte)
    requires a / 16 == 14 && IsTail(b) && IsTail(c)
    ensures var code := (a % 16 * 64 + b % 64) * 64 + c % 64;
          code < 0x10000 && (code >= 0x800 ==> Encode(code) == [a, b, c])
  {
    TailIs(b);
    TailIs(c);
    Join(a % 16, b % 64);
    Join(a % 16 * 64 + b % 64, c % 64);
    Split((a % 16 * 64 + b % 64) * 64 + c % 64);
  }

  lemma Back4(a: Byte, b: Byte, c: Byte, d: Byte)
    requires a / 8 == 30 && IsTail(b) && IsTail(c) && IsTail(d)
    ensures var code := ((a % 8 * 64 + b % 64) * 64 + c % 64) * 64 + d % 64;
            code < 0x200000 && (code >= 0x10000 ==> Encode(code) == [a, b, c, d])
  {
    TailIs(b);
    TailIs(c);
    TailIs(d);
    Join(a % 8, b % 64);
    Join(a % 8 * 64 + b % 64, c % 64);
    Join((a % 8 * 64 + b % 64) * 64 + c % 64, d % 64);
    Split(((a % 8 * 64 + b % 64) * 64 + c % 64) * 64 + d % 64);
  }

  lemma Size(code: Code)
    ensures |Encode(code)| == if code < 0x80 then 1 else if code < 0x800 then 2 else if code < 0x10000 then 3 else 4
  {
  }

  /** A shortest form that is read is what would be written for the code. */
  lemma WriteBack(s: Bytes)
    requires Decode(s).code >= 0 && s != []
    ensures var d := Decode(s);
            0 < d.bytes <= |s| && d.code < 0x200000 && (|Encode(d.code)| == d.bytes ==> s[..d.bytes] == Encode(d.code))
  {
    var d, b := Decode(s), s[0];
    if b < 0x80 {
      assert Encode(d.code) == [b] == s[..1];
    } else if b / 32 == 6 {
      hide Encode;
      Back2(b, s[1]);
      Size(d.code);
      assert s[..2] == [b, s[1]];
    } else if b / 16 == 14 {
      hide Encode;
      Back3(b, s[1], s[2]);
      Size(d.code);
      assert s[..3] == [b, s[1], s[2]];
    } else {
      hide Encode;
      Back4(b, s[1], s[2], s[3]);
      Size(d.code);
      assert s[..4] == [b, s[1], s[2], s[3]];
    }
  }

  /** The order of byte strings. */
  predicate Less(a: Bytes, b: Bytes) {
    b != [] && (a == [] || a[0] < b[0] || (a[0] == b[0] && Less(a[1..], b[1..])))
  }

  /** Bytes are in the order of the codes that they write (section 1 of RFC 3629). */
  lemma OrderKept(c: Code, d: Code)
    requires c < d
    ensures Less(Encode(c), Encode(d))
  {
    Size(c);
    Size(d);
    if |Encode(c)| != |Encode(d)| {
      Leads(c, d);
    } else {
      Digits(c, d);
      if 0x80 <= d < 0x800 {
        Less2(Encode(c), Encode(d));
      } else if 0x800 <= d < 0x10000 {
        Less3(Encode(c), Encode(d));
      } else if 0x10000 <= d {
        Less4(Encode(c), Encode(d));
      }
    }
  }

  /** The first digit to base 64 at which two codes differ. */
  lemma Digits(c: Code, d: Code)
    requires c < d
    ensures c / 262144 <= d / 262144 && c / 4096 <= d / 4096 && c / 64 <= d / 64
    ensures c / 262144 == d / 262144 && c / 4096 < d / 4096 ==> c / 4096 % 64 < d / 4096 % 64
    ensures c / 4096 == d / 4096 && c / 64 < d / 64 ==> c / 64 % 64 < d / 64 % 64
    ensures c / 64 == d / 64 ==> c % 64 < d % 64
  {
    Split(c);
    Split(d);
  }

  /** The longer form has the greater first byte. */
  lemma Leads(c: Code, d: Code)
    requires c < d && |Encode(c)| != |Encode(d)|
    ensures Encode(c)[0] < Encode(d)[0]
  {
    Split(c);
    Split(d);
  }

  lemma Less2(a: Bytes, b: Bytes)
    requires |a| == |b| == 2 && (a[0] < b[0] || (a[0] == b[0] && a[1] < b[1]))
    ensures Less(a, b)
  {
  }

  lemma Less3(a: Bytes, b: Bytes)
    requires |a| == |b| == 3
    requires a[0] < b[0] || (a[0] == b[0] && (a[1] < b[1] || (a[1] == b[1] && a[2] < b[2])))
    ensures Less(a, b)
  {
    if a[0] == b[0] {
      Less2(a[1..], b[1..]);
    }
  }

  lemma Less4(a: Bytes, b: Bytes)
    requires |a| == |b| == 4
    requires a[0] < b[0]
          || (a[0] == b[0] && (a[1] < b[1] || (a[1] == b[1] && (a[2] < b[2] || (a[2] == b[2] && a[3] < b[3])))))
    ensures Less(a, b)
  {
    if a[0] == b[0] {
      Less3(a[1..], b[1..]);
    }
  }

  // ----- writing into a buffer -----

  /** utf8CodeToChar: writes the bytes and a NUL, or nothing if the room is too small. */
  method CodeToChar(code: nat, vl: array<Byte>, at: nat, bytes: nat) returns (r: int)
    requires code < 0x4000000 && bytes > 0 && at + bytes <= vl.Length
    modifies vl
    ensures r == (if bytes < |Encode(code)| + 1 then -1 else |Encode(code)|)
    ensures r == -1 ==> vl[..] == old(vl[..])
    ensures r != -1 ==>
          at + r < vl.Length && vl[at + r] == 0 && forall i :: 0 <= i < r ==> vl[at + i] == Encode(code)[i]
    ensures r != -1 ==> forall i :: 0 <= i < vl.Length && (i < at || i > at + r) ==> vl[i] == old(vl[i])
  {
    if code < 0x80 {
      if bytes < 2 { return -1; }
      vl[at], vl[at + 1] := code, 0;
      return 1;
    } else if code < 0x800 {
      if bytes < 3 { return -1; }
      vl[at], vl[at + 1], vl[at + 2] := 0xC0 + code / 64, 0x80 + code % 64, 0;
      return 2;
    } else if code < 0x10000 {
      if bytes < 4 { return -1; }
      vl[at], vl[at + 1], vl[at + 2], vl[at + 3] := 0xE0 + code / 4096, 0x80 + code / 64 % 64, 0x80 + code % 64, 0;
      return 3;
    } else if code < 0x200000 {
      if bytes < 5 { return -1; }
      vl[at], vl[at + 1], vl[at + 2], vl[at + 3], vl[at + 4] :=
        0xF0 + code / 262144, 0x80 + code / 4096 % 64, 0x80 + code / 64 % 64, 0x80 + code % 64, 0;
      return 4;
    } else {
      if bytes < 6 { return -1; }
      vl[at], vl[at + 1], vl[at + 2], vl[at + 3], vl[at + 4], vl[at + 5] :=
        0xF8 + code / 16777216, 0x80 + code / 262144 % 64, 0x80 + code / 4096 % 64, 0x80 + code / 64 % 64,
            0x80 + code % 64, 0;
      return 5;
    }
  }
}
