/** BufferedWriter::serializeText for ordinary text and attribute values. */
module Escaping {
  import opened Utf8

  datatype Encoding = UTF_8 | US_ASCII

  /** What the caller asks to be protected. */
  datatype Protect = Protect(ltgt: bool, quote: bool, amp: bool)

  const ENTITY_LT: Bytes := [38, 108, 116, 59]                  // &lt;
  const ENTITY_GT: Bytes := [38, 103, 116, 59]                  // &gt;
  const ENTITY_QUOT: Bytes := [38, 113, 117, 111, 116, 59]      // &quot;
  const ENTITY_AMP: Bytes := [38, 97, 109, 112, 59]             // &amp;

  function Decimal(n: nat): (s: Bytes)
    ensures s != [] && forall k :: 0 <= k < |s| ==> 48 <= s[k] < 58
  {
    if n < 10 then [48 + n] else Decimal(n / 10) + [48 + n % 10]
  }

  /** A decimal character reference. */
  function Reference(n: nat): Bytes {
    [38, 35] + Decimal(n) + [59]
  }

  /** How a byte below 0x80 is written. */
  function EscapedByte(b: Byte, p: Protect): Bytes {
    if p.ltgt && b == 60 then ENTITY_LT
    else if p.ltgt && b == 62 then ENTITY_GT
    else if p.quote && b == 34 then ENTITY_QUOT
    else if p.amp && b == 38 then ENTITY_AMP
    else [b]
  }

  /** How a multi-byte character with a code is written. */
  function EscapedWide(wide: Bytes, code: int, encoding: Encoding): Bytes {
    if encoding == UTF_8 then wide
    else if code < 128 then if code % 256 == 0 then [] else [code % 256]
    else Reference(code)
  }

  /** The meaning of serializeText on any bytes, well-formed UTF-8 or not. */
  function Serialized(text: Bytes, p: Protect, encoding: Encoding): Bytes {
    if text == [] then []
    else if text[0] < 0x80 then EscapedByte(text[0], p) + Serialized(text[1..], p, encoding)
    else
      var d := Decode(text);
      DecodeInside(text);
      if d.bytes == NOT_UTF8 then [text[0]] + Serialized(text[1..], p, encoding)
      else EscapedWide(text[..d.bytes], d.code, encoding) + Serialized(text[d.bytes..], p, encoding)
  }

  lemma DecodeInside(text: Bytes)
    requires text != []
    ensures Decode(text).bytes == NOT_UTF8 || 0 < Decode(text).bytes <= |text|
  {
  }

  /** How one code is written. */
  function EscapedCode(code: Code, p: Protect, encoding: Encoding): Bytes {
    if code < 0x80 then EscapedByte(code, p) else if encoding == UTF_8 then Encode(code) else Reference(code)
  }

  function EscapedAll(codes: seq<Code>, p: Protect, encoding: Encoding): Bytes {
    if codes == [] then [] else EscapedCode(codes[0], p, encoding) + EscapedAll(codes[1..], p, encoding)
  }

  /** On well-formed text the bytes are escaped code by code. */
  lemma {:induction false} SerializedCodes(codes: seq<Code>, p: Protect, encoding: Encoding)
    ensures Serialized(EncodeAll(codes), p, encoding) == EscapedAll(codes, p, encoding)
  {
    hide Decode, Encode, EscapedByte, Reference;
    if codes != [] {
      var c, rest := codes[0], EncodeAll(codes[1..]);
      var text := EncodeAll(codes);
      ReadBack(c, rest);
      OneByte(c);
      assert text[..|Encode(c)|] == Encode(c) && text[|Encode(c)|..] == rest;
      SerializedCodes(codes[1..], p, encoding);
    }
  }

  /** What the caller asks to be protected, and nothing else, is written differently. */
  predicate Protected(b: Byte, p: Protect) {
    (p.ltgt && (b == 60 || b == 62)) || (p.quote && b == 34) || (p.amp && b == 38)
  }

  /** For UTF-8, or within ASCII, text comes out as it is if and only if it holds no byte that is protected. */
  lemma {:induction false} SerializedSame(text: Bytes, p: Protect, encoding: Encoding)
    requires encoding == UTF_8 || forall k :: 0 <= k < |text| ==> text[k] < 0x80
    ensures |Serialized(text, p, encoding)| >= |text|
    ensures Serialized(text, p, encoding) == text <==> forall k :: 0 <= k < |text| ==> !Protected(text[k], p)
    decreases |text|
  {
    hide Decode, Protected, EscapedByte, Serialized;
    if text == [] {
      NothingSerialized(p, encoding);
    } else {
      var d := HeadSize(text);
      var head, rest := text[..d], text[d..];
      var written := if text[0] < 0x80 then EscapedByte(text[0], p) else head;
      SerializedHead(text, p, encoding);
      SerializedSame(rest, p, encoding);
      assert text == head + rest;
      if text[0] < 0x80 {
        ByteSame(text[0], p);
        assert head == [text[0]];
      } else {
        WideBytes(text, p);
      }
      SameHead(written, head, Serialized(rest, p, encoding), rest);
      NoneIn(head, rest, p);
    }
  }

  /** How many bytes the character at the head takes. */
  function HeadSize(text: Bytes): (d: nat)
    requires text != []
    ensures 0 < d <= |text| && (text[0] < 0x80 ==> d == 1)
  {
    DecodeInside(text);
    if text[0] < 0x80 || Decode(text).bytes == NOT_UTF8 then 1 else Decode(text).bytes
  }

  lemma NothingSerialized(p: Protect, encoding: Encoding)
    ensures Serialized([], p, encoding) == []
  {
  }

  lemma SerializedHead(text: Bytes, p: Protect, encoding: Encoding)
    requires text != [] && (encoding == UTF_8 || text[0] < 0x80)
    ensures var d := HeadSize(text);
            Serialized(text, p, encoding)
            == (if text[0] < 0x80 then EscapedByte(text[0], p) else text[..d]) + Serialized(text[d..], p, encoding)
  {
    hide Decode, EscapedByte;
    DecodeInside(text);
    assert text[..1] == [text[0]];
  }

  /** No byte of a and b is protected if and only if none of either is. */
  lemma NoneIn(a: Bytes, b: Bytes, p: Protect)
    ensures (forall k :: 0 <= k < |a + b| ==> !Protected((a + b)[k], p)) <==>
            (forall k :: 0 <= k < |a| ==> !Protected(a[k], p)) && (forall k :: 0 <= k < |b| ==> !Protected(b[k], p))
  {
    hide Protected;
    if forall k :: 0 <= k < |a + b| ==> !Protected((a + b)[k], p) {
      forall k | 0 <= k < |a|
        ensures !Protected(a[k], p)
      {
        assert (a + b)[k] == a[k];
      }
      forall k | 0 <= k < |b|
        ensures !Protected(b[k], p)
      {
        assert (a + b)[|a| + k] == b[k];
      }
    }
  }

  lemma ByteSame(b: Byte, p: Protect)
    ensures if Protected(b, p) then |EscapedByte(b, p)| > 1 else EscapedByte(b, p) == [b]
  {
  }

  /** No byte of a multi-byte character is protected. */
  lemma WideBytes(text: Bytes, p: Protect)
    requires text != [] && text[0] >= 0x80
    ensures forall k :: 0 <= k < HeadSize(text) ==> !Protected(text[k], p)
  {
    assert forall k: nat :: k < |text| ==> ByteAt(text, k) == text[k];
  }

  lemma SameHead(a: Bytes, b: Bytes, c: Bytes, d: Bytes)
    requires |a| >= |b| && |c| >= |d|
    ensures a + c == b + d <==> a == b && c == d
  {
    if a + c == b + d {
      assert |a| == |b|;
      assert (a + c)[..|a|] == a && (b + d)[..|a|] == b && (a + c)[|a|..] == c && (b + d)[|a|..] == d;
    }
  }

  lemma OneByte(code: Code)
    ensures |Encode(code)| > 0 && (code < 0x80 ==> Encode(code) == [code]) && (code >= 0x80 ==> Encode(code)[0] >= 0x80)
  {
  }

  class BufferedWriter {
    var cache: Bytes
    var encoding: Encoding

    constructor (encoding: Encoding)
      ensures cache == [] && this.encoding == encoding
    {
      cache := [];
      this.encoding := encoding;
    }

    method AddStr(s: Bytes)
      modifies `cache
      ensures cache == old(cache) + s
    {
      cache := cache + s;
    }

    /** Appends the bytes of a C string, escaped. */
    method SerializeText(text: Bytes, p: Protect)
      requires 0 !in text
      modifies `cache
      ensures cache == old(cache) + Serialized(text, p, encoding)
    {
      hide Decode, Reference;
      var i := 0;
      assert text[0..] == text;
      while i < |text|
        invariant i <= |text|
              && cache + Serialized(text[i..], p, encoding) == old(cache) + Serialized(text, p, encoding)
      {
        var rest := text[i..];
        var b := text[i];
        assert rest[0] == b && rest[1..] == text[i + 1..];
        if b >= 0x80 {
          var d := Decode(rest);
          DecodeInside(rest);
          if d.bytes == NOT_UTF8 {
            Joined(cache, [b], Serialized(text[i + 1..], p, encoding));
            AddStr([b]);
            i := i + 1;
            continue;
          }
          assert rest[d.bytes..] == text[i + d.bytes..];
          Joined(cache, EscapedWide(rest[..d.bytes], d.code, encoding), Serialized(text[i + d.bytes..], p, encoding));
          if encoding != UTF_8 {
            if d.code < 128 {
              AddStr(if d.code % 256 == 0 then [] else [d.code % 256]);
            } else {
              AddStr(Reference(d.code));
            }
          } else {
            AddStr(rest[..d.bytes]);
          }
          i := i + d.bytes;
          continue;
        }
        Joined(cache, EscapedByte(b, p), Serialized(text[i + 1..], p, encoding));
        i := i + 1;
        if p.ltgt && b == 60 {
          AddStr(ENTITY_LT);
          continue;
        }
        if p.ltgt && b == 62 {
          AddStr(ENTITY_GT);
          continue;
        }
        if b == 34 && p.quote {
          AddStr(ENTITY_QUOT);
          continue;
        }
        if b == 38 && p.amp {
          AddStr(ENTITY_AMP);
          continue;
        }
        AddStr([b]);
      }
    }
  }

  lemma Joined(a: Bytes, b: Bytes, c: Bytes)
    ensures (a + b) + c == a + (b + c)
  {
  }
}
