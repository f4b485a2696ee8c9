/** What the parser reads back of an escaped text or attribute value (sections 2.4, 4.1 and 4.6 of XML 1.0). */
module EscapeRoundTrip {
  import opened Escaping
  import opened Parsing
  import opened Reader
  import opened Utf8

  // ----- the characters of an escaped text -----

  function EscapedCodes(c: Code, p: Protect, encoding: Encoding): seq<Code> {
    if c < 0x80 then EscapedByte(c, p) else if encoding == UTF_8 then [c] else Reference(c)
  }

  function EscapedCodesAll(codes: seq<Code>, p: Protect, encoding: Encoding): seq<Code> {
    if codes == [] then [] else EscapedCodes(codes[0], p, encoding) + EscapedCodesAll(codes[1..], p, encoding)
  }

  /** A character cut by the end of a window is seen as its bytes. */
  predicate IsCut(c: Code, encoding: Encoding, pieces: seq<Bytes>) {
    c >= 0x80 && encoding == UTF_8 && pieces != [] && |Encode(c)| > |pieces[0]|
  }

  /** The codes the parser sees of an escaped text that comes in windows. */
  function Seen(codes: seq<Code>, p: Protect, encoding: Encoding, pieces: seq<Bytes>): seq<Code>
    requires Filled(pieces) && EscapedAll(codes, p, encoding) <= Concat(pieces)
  {
    if codes == [] then [] else
      TextSplits(codes, p, encoding, pieces);
      (if IsCut(codes[0], encoding, pieces) then Encode(codes[0]) else [codes[0]])
      + Seen(codes[1..], p, encoding, Skip(pieces, |EscapedCode(codes[0], p, encoding)|))
  }

  lemma TextSplits(codes: seq<Code>, p: Protect, encoding: Encoding, pieces: seq<Bytes>)
    requires Filled(pieces) && EscapedAll(codes, p, encoding) <= Concat(pieces) && codes != []
    ensures EscapedCode(codes[0], p, encoding) <= Concat(pieces)
    ensures EscapedAll(codes[1..], p, encoding) <= Concat(Skip(pieces, |EscapedCode(codes[0], p, encoding)|))
  {
    hide EscapedCode, Skip;
    var s := EscapedCode(codes[0], p, encoding);
    assert Concat(pieces) == EscapedAll(codes, p, encoding) + Concat(pieces)[|EscapedAll(codes, p, encoding)|..];
    assert Concat(pieces)[..|s|] == s;
  }

  lemma EscapedAscii(c: Code, p: Protect, encoding: Encoding)
    requires c < 0x80 || encoding == US_ASCII
    ensures EscapedCodes(c, p, encoding) == EscapedCode(c, p, encoding)
    ensures forall k :: 0 <= k < |EscapedCode(c, p, encoding)| ==> EscapedCode(c, p, encoding)[k] < 0x80
  {
    hide Decimal;
  }

  lemma WideHead(c: Code, s: Bytes)
    requires c >= 0x80 && Encode(c) <= s
    ensures s != [] && ReadOne(s) == Decoded(c, |Encode(c)|)
  {
    hide Encode, Decode, CharSize;
    OneByte(c);
    ReadBack(c, s[|Encode(c)|..]);
    assert s == Encode(c) + s[|Encode(c)|..];
  }

  lemma RawBytes(s: Bytes)
    requires forall k :: 0 <= k < |s| ==> s[k] < 0x80
    ensures forall k :: 0 <= k < |s| ==> IsRaw(s[k])
  {
  }

  /** One escaped character is read: the codes seen, and whether it was cut. */
  lemma ReadCode(c: Code, p: Protect, encoding: Encoding, pieces: seq<Bytes>, n: int)
    requires Filled(pieces) && EscapedCode(c, p, encoding) <= Concat(pieces) && n >= |EscapedCode(c, p, encoding)|
    ensures var rest := Skip(pieces, |EscapedCode(c, p, encoding)|);
            ReadPieces(pieces)
                == (if IsCut(c, encoding, pieces) then Encode(c) else EscapedCodes(c, p, encoding)) + ReadPieces(rest)
            && (Whole(pieces, n) == (!IsCut(c, encoding, pieces) && Whole(rest, n - |EscapedCode(c, p, encoding)|)))
  {
    hide Encode, ReadPieces, ReadOne, EscapedByte, Reference;
    var s := EscapedCode(c, p, encoding);
    if c < 0x80 || encoding == US_ASCII {
      EscapedAscii(c, p, encoding);
      RawBytes(s);
      ReadRaw(s, pieces);
      WholeRaw(s, pieces, n);
      NoneCut(Skip(pieces, |s|), n - |s|);
    } else {
      WideHead(c, Concat(pieces));
      if |s| <= |pieces[0]| {
        ReadInside(pieces);
      } else {
        ReadCut(pieces);
      }
    }
  }

  /** The bytes of a character that was cut are characters of their own. */
  lemma CutCodes(c: Code)
    requires c >= 0x80
    ensures |Encode(c)| > 1 && forall k :: 0 <= k < |Encode(c)| ==> Encode(c)[k] >= 0x80
  {
  }

  lemma {:induction false} EscapedCodesJoin(a: seq<Code>, b: seq<Code>, p: Protect, encoding: Encoding)
    ensures EscapedCodesAll(a + b, p, encoding) == EscapedCodesAll(a, p, encoding) + EscapedCodesAll(b, p, encoding)
  {
    hide EscapedCodes;
    if a == [] {
      assert a + b == b;
    } else {
      assert (a + b)[0] == a[0] && (a + b)[1..] == a[1..] + b;
      EscapedCodesJoin(a[1..], b, p, encoding);
    }
  }

  lemma {:induction false} RawCodes(s: seq<Code>, p: Protect)
    requires forall k :: 0 <= k < |s| ==> s[k] >= 0x80
    ensures EscapedCodesAll(s, p, UTF_8) == s
  {
    if s != [] {
      RawCodes(s[1..], p);
    }
  }

  lemma OneCode(c: Code, p: Protect, encoding: Encoding)
    ensures EscapedCodesAll([c], p, encoding) == EscapedCodes(c, p, encoding)
  {
    hide EscapedCodes;
    assert EscapedCodesAll([c][1..], p, encoding) == [];
  }

  lemma SeenHead(c: Code, p: Protect, encoding: Encoding, pieces: seq<Bytes>)
    ensures EscapedCodesAll(if IsCut(c, encoding, pieces) then Encode(c) else [c], p, encoding)
            == (if IsCut(c, encoding, pieces) then Encode(c) else EscapedCodes(c, p, encoding))
  {
    hide Encode, EscapedCodes;
    OneCode(c, p, encoding);
    if IsCut(c, encoding, pieces) {
      CutCodes(c);
      RawCodes(Encode(c), p);
    }
  }

  lemma {:induction false} ReadEscaped(codes: seq<Code>, p: Protect, encoding: Encoding, pieces: seq<Bytes>)
    requires Filled(pieces) && EscapedAll(codes, p, encoding) <= Concat(pieces)
    ensures ReadPieces(pieces) ==
              EscapedCodesAll(Seen(codes, p, encoding, pieces), p, encoding)
                  + ReadPieces(Skip(pieces, |EscapedAll(codes, p, encoding)|))
  {
    hide Encode, ReadPieces, EscapedCode, EscapedCodes, IsCut, EscapedCodesAll, Seen, Skip;
    if codes == [] {
      NoneSeen(p, encoding, pieces);
    } else {
      var c := codes[0];
      var n := |EscapedCode(c, p, encoding)|;
      var rest := Skip(pieces, n);
      TextSplits(codes, p, encoding, pieces);
      ReadEscaped(codes[1..], p, encoding, rest);
      ReadCode(c, p, encoding, pieces, n);
      SkipSkip(pieces, n, |EscapedAll(codes[1..], p, encoding)|);
      SeenStep(codes, p, encoding, pieces);
      JoinedCodes(if IsCut(c, encoding, pieces) then Encode(c) else EscapedCodes(c, p, encoding),
                  EscapedCodesAll(Seen(codes[1..], p, encoding, rest), p, encoding),
                  ReadPieces(Skip(pieces, |EscapedAll(codes, p, encoding)|)));
    }
  }

  lemma JoinedCodes(a: seq<Code>, b: seq<Code>, c: seq<Code>)
    ensures (a + b) + c == a + (b + c)
  {
  }

  lemma NoneSeen(p: Protect, encoding: Encoding, pieces: seq<Bytes>)
    requires Filled(pieces)
    ensures Seen([], p, encoding, pieces) == [] && EscapedCodesAll([], p, encoding) == [] && Skip(pieces, 0) == pieces
  {
  }

  lemma SeenStep(codes: seq<Code>, p: Protect, encoding: Encoding, pieces: seq<Bytes>)
    requires Filled(pieces) && EscapedAll(codes, p, encoding) <= Concat(pieces) && codes != []
    ensures var rest := Skip(pieces, |EscapedCode(codes[0], p, encoding)|);
            EscapedAll(codes[1..], p, encoding) <= Concat(rest)
            && EscapedCodesAll(Seen(codes, p, encoding, pieces), p, encoding) ==
                 (if IsCut(codes[0], encoding, pieces) then Encode(codes[0]) else EscapedCodes(codes[0], p, encoding))
                 + EscapedCodesAll(Seen(codes[1..], p, encoding, rest), p, encoding)
  {
    hide Encode, EscapedCodesAll, EscapedCode, EscapedCodes, IsCut, Skip;
    var c := codes[0];
    TextSplits(codes, p, encoding, pieces);
    SeenHead(c, p, encoding, pieces);
    EscapedCodesJoin(if IsCut(c, encoding, pieces) then Encode(c) else [c],
                     Seen(codes[1..], p, encoding, Skip(pieces, |EscapedCode(c, p, encoding)|)), p, encoding);
  }

  function Wides(codes: seq<Code>): nat {
    if codes == [] then 0 else (if codes[0] >= 0x80 then 1 else 0) + Wides(codes[1..])
  }

  lemma {:induction false} WidesJoin(a: seq<Code>, b: seq<Code>)
    ensures Wides(a + b) == Wides(a) + Wides(b)
  {
    if a == [] {
      assert a + b == b;
    } else {
      assert (a + b)[0] == a[0] && (a + b)[1..] == a[1..] + b;
      WidesJoin(a[1..], b);
    }
  }

  lemma {:induction false} AllWide(s: seq<Code>)
    requires forall k :: 0 <= k < |s| ==> s[k] >= 0x80
    ensures Wides(s) == |s|
  {
    if s != [] {
      AllWide(s[1..]);
    }
  }

  /** The codes seen are those of the text, or there are more beyond ASCII: exactly as no character is cut. */
  lemma {:induction false} SeenWhole(codes: seq<Code>, p: Protect, encoding: Encoding, pieces: seq<Bytes>)
    requires Filled(pieces) && EscapedAll(codes, p, encoding) <= Concat(pieces)
    ensures var seen := Seen(codes, p, encoding, pieces);
            if Whole(pieces, |EscapedAll(codes, p, encoding)|) then seen == codes else Wides(seen) > Wides(codes)
    ensures Wides(Seen(codes, p, encoding, pieces)) >= Wides(codes)
  {
    hide Encode, EscapedCode, Whole, IsCut, Wides, Skip, ReadPieces, EscapedCodes;
    if codes == [] {
      NoneCut(pieces, 0);
    } else {
      var c := codes[0];
      var rest := Skip(pieces, |EscapedCode(c, p, encoding)|);
      TextSplits(codes, p, encoding, pieces);
      SeenWhole(codes[1..], p, encoding, rest);
      ReadCode(c, p, encoding, pieces, |EscapedAll(codes, p, encoding)|);
      CutIsWide(c, encoding, pieces);
      SeenMore(c, codes[1..], Seen(codes[1..], p, encoding, rest), IsCut(c, encoding, pieces));
      assert codes == [c] + codes[1..];
    }
  }

  lemma CutIsWide(c: Code, encoding: Encoding, pieces: seq<Bytes>)
    ensures IsCut(c, encoding, pieces) ==> c >= 0x80
  {
  }

  /** One character more in front of what is seen. */
  lemma SeenMore(c: Code, codes: seq<Code>, seen: seq<Code>, cut: bool)
    requires Wides(seen) >= Wides(codes) && (cut ==> c >= 0x80)
    ensures var all := (if cut then Encode(c) else [c]) + seen;
            && Wides(all) - Wides([c] + codes) == Wides(seen) - Wides(codes) + (if cut then |Encode(c)| - 1 else 0)
            && (cut ==> |Encode(c)| > 1) && (!cut ==> (all == [c] + codes <==> seen == codes))
  {
    hide Encode, Wides;
    WidesJoin(if cut then Encode(c) else [c], seen);
    WidesJoin([c], codes);
    HeadWides(c);
    assert ([c] + seen)[1..] == seen && ([c] + codes)[1..] == codes;
    if cut {
      CutCodes(c);
      AllWide(Encode(c));
    }
  }

  lemma HeadWides(c: Code)
    ensures Wides([c]) == (if c >= 0x80 then 1 else 0) && (c >= 0x80 ==> Wides(Encode(c)) > 1)
  {
    hide Encode;
    assert Wides([c][1..]) == 0;
    if c >= 0x80 {
      CutCodes(c);
      AllWide(Encode(c));
    }
  }

  /** A text escaped for US-ASCII is never cut. */
  lemma {:induction false} AsciiIsWhole(codes: seq<Code>, p: Protect, pieces: seq<Bytes>)
    requires Filled(pieces) && EscapedAll(codes, p, US_ASCII) <= Concat(pieces)
    ensures Whole(pieces, |EscapedAll(codes, p, US_ASCII)|)
  {
    hide EscapedCode, Whole;
    if codes == [] {
      NoneCut(pieces, 0);
    } else {
      TextSplits(codes, p, US_ASCII, pieces);
      AsciiIsWhole(codes[1..], p, Skip(pieces, |EscapedCode(codes[0], p, US_ASCII)|));
      ReadCode(codes[0], p, US_ASCII, pieces, |EscapedAll(codes, p, US_ASCII)|);
    }
  }

  lemma {:induction false} ReadEncoded(codes: seq<Code>)
    ensures ReadAll(EncodeAll(codes)) == codes
  {
    hide Encode, ReadOne;
    if codes != [] {
      ReadEncoded(codes[1..]);
      var s := EncodeAll(codes);
      OneByte(codes[0]);
      assert s[|Encode(codes[0])|..] == EncodeAll(codes[1..]);
      if codes[0] < 0x80 {
        AsciiHead(s);
      } else {
        WideHead(codes[0], s);
      }
    }
  }

  lemma AsciiHead(s: Bytes)
    requires s != [] && s[0] < 0x80
    ensures ReadOne(s) == Decoded(s[0], 1)
  {
  }

  // ----- references -----

  lemma {:induction false} AtoiJoin(s: Bytes, t: Bytes, acc: nat)
    requires forall k :: 0 <= k < |s| ==> 48 <= s[k] < 58
    ensures Atoi(s + t, acc) == Atoi(t, Atoi(s, acc))
  {
    if s == [] {
      assert s + t == t;
    } else {
      assert (s + t)[0] == s[0] && (s + t)[1..] == s[1..] + t;
      AtoiJoin(s[1..], t, acc * 10 + (s[0] - 48));
    }
  }

  /** Decimal references are read as the code they were written for. */
  lemma {:induction false} AtoiDecimal(n: nat)
    ensures Atoi(Decimal(n), 0) == n && ReferenceValue(Decimal(n)) == n
  {
    if n >= 10 {
      AtoiDecimal(n / 10);
      AtoiJoin(Decimal(n / 10), [48 + n % 10], 0);
    }
  }

  /** What the parser puts in for an entity name. */
  function Meaning(name: Bytes): Bytes {
    if name != [] && name[0] == 35 then
      var val := ReferenceValue(name[1..]);
      if val == 0 || val >= 0x4000000 then [] else Put([], val)
    else Predefined(name)
  }

  /** The states from which an entity is read here: a text, or a value between double or single quotes. */
  predicate Reading(m: Fields) {
    m.state.Text? || (m.state.AttrValue? && (m.delimiter == 34 || m.delimiter == 39))
  }

  /** As it is written, a character does not end what it is in. No writer protects a single quote. */
  predicate Fits(m: Fields, c: Code, p: Protect) {
    if m.state.Text? then p.ltgt else if m.delimiter == 34 then p.quote else c != m.delimiter
  }

  /** m' has read s more than m. */
  predicate Grown(m: Fields, m': Fields, s: Bytes) {
    && m'.state == m.state && m'.delimiter == m.delimiter && m'.texts == m.texts && m'.values == m.values
    && (if m.state.Text? then m'.text == m.text + s && m'.value == m.value
          else m'.value == m.value + s && m'.text == m.text)
  }

  lemma {:induction false} RunName(m: Fields, s: Bytes, rest: seq<Code>, keepAll: bool)
    requires m.state.Entity? && rest != [] && forall k :: 0 <= k < |s| ==> s[k] < 0x80 && s[k] != 59
    ensures Run(m, s + rest, keepAll) == Run(m.(entity := m.entity + s), rest, keepAll)
    decreases |s|
  {
    if s == [] {
      assert s + rest == rest && m.entity + s == m.entity;
    } else {
      assert s + rest == [s[0] as Code] + (s[1..] + rest);
      RunStep(m, s[0], s[1..] + rest, keepAll);
      var m1 := m.(entity := m.entity + [s[0]]);
      RunName(m1, s[1..], rest, keepAll);
      assert m1.entity + s[1..] == m.entity + s;
    }
  }

  /** The parser behind the ';' of a reference. */
  lemma AtSemicolon(m: Fields, name: Bytes, rest: seq<Code>, keepAll: bool) returns (m': Fields)
    requires Reading(m) && forall k :: 0 <= k < |name| ==> name[k] < 0x80 && name[k] != 59
    ensures m' == Resolved(m.(before := m.state, entity := name, state := Entity), rest == [])
    ensures Run(m, [38 as Code] + name + [59 as Code] + rest, keepAll) == Run(m', rest, keepAll)
  {
    hide Put, ReferenceValue, Predefined, Run;
    var tail: seq<Code> := [59] + rest;
    var m1 := m.(before := m.state, entity := [], state := Entity);
    assert [38 as Code] + name + [59 as Code] + rest == [38 as Code] + (name + tail);
    RunStep(m, 38, name + tail, keepAll);
    RunName(m1, name, tail, keepAll);
    assert m1.entity + name == name;
    m' := Fed(m1.(entity := name), 59, rest == [], keepAll);
    RunStep(m1.(entity := name), 59, rest, keepAll);
  }

  /** An entity is replaced by its meaning. */
  lemma RunEntity(m: Fields, name: Bytes, rest: seq<Code>, keepAll: bool) returns (m': Fields)
    requires Reading(m) && rest != [] && Meaning(name) != []
          && forall k :: 0 <= k < |name| ==> name[k] < 0x80 && name[k] != 59
    ensures Run(m, [38 as Code] + name + [59 as Code] + rest, keepAll) == Run(m', rest, keepAll)
          && Grown(m, m', Meaning(name))
  {
    hide Put, ReferenceValue, Predefined, Run;
    m' := AtSemicolon(m, name, rest, keepAll);
  }

  lemma PutIs(c: nat)
    requires c < 0x4000000
    ensures Put([], c) == Encode(c)
  {
  }

  lemma Names(c: Code, p: Protect)
    requires c < 0x80 && EscapedByte(c, p) != [c]
    ensures EscapedByte(c, p)[0] == 38 && |EscapedByte(c, p)| >= 2
    ensures var s := EscapedByte(c, p);
            s == [38 as Byte] + s[1..|s| - 1] + [59 as Byte] && Meaning(s[1..|s| - 1]) == [c]
    ensures var s := EscapedByte(c, p);
            c != 13 && forall k :: 1 <= k < |s| - 1 ==> s[k] < 0x80 && s[k] != 59
  {
    hide ReferenceValue;
    if c == 60 {
      NameOf(ENTITY_LT, [108, 116]);
    } else if c == 62 {
      NameOf(ENTITY_GT, [103, 116]);
    } else if c == 34 {
      NameOf(ENTITY_QUOT, [113, 117, 111, 116]);
    } else {
      NameOf(ENTITY_AMP, [97, 109, 112]);
    }
  }

  lemma NameOf(s: Bytes, name: Bytes)
    requires s == [38 as Byte] + name + [59 as Byte]
    ensures s[1..|s| - 1] == name
  {
  }

  /** One escaped character is read back: raw or as an entity, in a text or in a value. A raw carriage return in a text
      is lost. */
  lemma RunCode(m: Fields, c: Code, p: Protect, encoding: Encoding, rest: seq<Code>, keepAll: bool) returns (m': Fields)
    requires Reading(m) && c != 0 && rest != [] && p.amp && Fits(m, c, p)
    ensures Run(m, EscapedCodes(c, p, encoding) + rest, keepAll) == Run(m', rest, keepAll)
    ensures Grown(m, m', if m.state.Text? && c == 13 then [] else Encode(c))
  {
    hide Run, Predefined, ReferenceValue, Encode, Decimal;
    var s := EscapedCodes(c, p, encoding);
    PutIs(c);
    OneByte(c);
    if s == [c] {
      RunStep(m, c, rest, keepAll);
      RawCode(m, c, p, encoding, keepAll);
      m' := Fed(m, c, false, keepAll);
    } else {
      var name := EscapedName(c, p, encoding);
      assert s + rest == [38 as Code] + name + [59 as Code] + rest;
      m' := RunEntity(m, name, rest, keepAll);
    }
  }

  lemma EscapedName(c: Code, p: Protect, encoding: Encoding) returns (name: Bytes)
    requires c != 0 && EscapedCodes(c, p, encoding) != [c]
    ensures EscapedCodes(c, p, encoding) == [38 as Code] + name + [59 as Code] && Meaning(name) == Encode(c)
          && Encode(c) != [] && c != 13
    ensures forall k :: 0 <= k < |name| ==> name[k] < 0x80 && name[k] != 59
  {
    hide EscapedByte, Encode, Meaning, Decimal;
    OneByte(c);
    if c < 0x80 {
      Names(c, p);
      name := EscapedByte(c, p)[1..|EscapedByte(c, p)| - 1];
    } else {
      name := [35] + Decimal(c);
      DecimalMeaning(c);
    }
  }

  lemma DecimalMeaning(c: Code)
    requires c != 0
    ensures Meaning([35] + Decimal(c)) == Encode(c)
  {
    hide Encode, Decimal;
    AtoiDecimal(c);
    assert ([35] + Decimal(c))[1..] == Decimal(c);
    PutIs(c);
  }

  lemma RawCode(m: Fields, c: Code, p: Protect, encoding: Encoding, keepAll: bool)
    requires Reading(m) && p.amp && Fits(m, c, p) && EscapedCodes(c, p, encoding) == [c]
    ensures Grown(m, Fed(m, c, false, keepAll), if m.state.Text? && c == 13 then [] else Encode(c))
  {
  }

  // ----- whole texts -----

  function NoReturns(codes: seq<Code>): seq<Code> {
    if codes == [] then [] else (if codes[0] == 13 then [] else [codes[0]]) + NoReturns(codes[1..])
  }

  function DropSpaces(codes: seq<Code>): seq<Code> {
    if codes != [] && IsSpace(codes[0]) then DropSpaces(codes[1..]) else codes
  }

  /** What is left of a text: carriage returns go, and without parseKeepAllText the space at its start. */
  function Kept(codes: seq<Code>, keepAll: bool): seq<Code> {
    NoReturns(if keepAll then codes else DropSpaces(codes))
  }

  lemma {:induction false} RunCodes(m: Fields, codes: seq<Code>, p: Protect, encoding: Encoding, rest: seq<Code>,
      keepAll: bool) returns (m': Fields)
    requires Reading(m) && rest != [] && p.amp && 0 !in codes && forall c :: c in codes ==> Fits(m, c, p)
    ensures Run(m, EscapedCodesAll(codes, p, encoding) + rest, keepAll) == Run(m', rest, keepAll)
    ensures Grown(m, m', EncodeAll(if m.state.Text? then NoReturns(codes) else codes))
    decreases |codes|
  {
    hide Run, EscapedCodes, Encode;
    if codes == [] {
      assert EscapedCodesAll(codes, p, encoding) + rest == rest;
      m' := m;
    } else {
      var c, more := codes[0], EscapedCodesAll(codes[1..], p, encoding) + rest;
      assert EscapedCodesAll(codes, p, encoding) + rest == EscapedCodes(c, p, encoding) + more;
      var m1 := RunCode(m, c, p, encoding, more, keepAll);
      assert forall d :: d in codes[1..] ==> Fits(m, d, p) && Fits(m1, d, p);
      m' := RunCodes(m1, codes[1..], p, encoding, rest, keepAll);
      var s := if m.state.Text? && c == 13 then [] else Encode(c);
      var t := EncodeAll(if m.state.Text? then NoReturns(codes[1..]) else codes[1..]);
      Joined(if m.state.Text? then m.text else m.value, s, t);
      EncodeHead(codes, m.state.Text?);
    }
  }

  lemma EncodeHead(codes: seq<Code>, text: bool)
    requires codes != []
    ensures EncodeAll(if text then NoReturns(codes) else codes) ==
              (if text && codes[0] == 13 then [] else Encode(codes[0]))
                  + EncodeAll(if text then NoReturns(codes[1..]) else codes[1..])
  {
    hide Encode;
    if text && codes[0] != 13 {
      assert NoReturns(codes)[0] == codes[0] && NoReturns(codes)[1..] == NoReturns(codes[1..]);
    } else if text {
      assert NoReturns(codes) == NoReturns(codes[1..]);
    }
  }

  /** From the state outside a text: leading space is skipped, then the text starts. */
  lemma {:induction false} RunOutside(m: Fields, codes: seq<Code>, p: Protect, encoding: Encoding, rest: seq<Code>,
      keepAll: bool) returns (m': Fields)
    requires m.state.Outside? && m.text == [] && rest != [] && p.amp && p.ltgt && 0 !in codes
    ensures Run(m, EscapedCodesAll(codes, p, encoding) + rest, keepAll) == Run(m', rest, keepAll)
    ensures m'.state == (if (if keepAll then codes else DropSpaces(codes)) == [] then Outside else Text)
    ensures m'.text == EncodeAll(Kept(codes, keepAll)) && m'.texts == m.texts
    decreases |codes|
  {
    hide Run, Encode, Predefined;
    if codes == [] {
      assert EscapedCodesAll(codes, p, encoding) + rest == rest;
      m' := m;
    } else {
      var c, more := codes[0], EscapedCodesAll(codes[1..], p, encoding) + rest;
      assert EscapedCodesAll(codes, p, encoding) + rest == EscapedCodes(c, p, encoding) + more;
      if !keepAll && IsSpace(c) {
        RunStep(m, c, more, keepAll);
        m' := RunOutside(m, codes[1..], p, encoding, rest, keepAll);
      } else {
        FirstCode(m, c, p, encoding, more, keepAll);
        var m1 := m.(state := Text);
        m' := RunCodes(m1, codes, p, encoding, rest, keepAll);
      }
    }
  }

  /** A character that is not skipped starts the text and is looked at again. */
  lemma FirstCode(m: Fields, c: Code, p: Protect, encoding: Encoding, more: seq<Code>, keepAll: bool)
    requires m.state.Outside? && m.text == [] && p.ltgt && (keepAll || !IsSpace(c))
    ensures Run(m, EscapedCodes(c, p, encoding) + more, keepAll)
          == Run(m.(state := Text), EscapedCodes(c, p, encoding) + more, keepAll)
  {
    hide Decimal;
    var s := EscapedCodes(c, p, encoding) + more;
    assert s[0] != 60 && (s[0] == c || s[0] == 38);
    assert s == [s[0]] + s[1..];
    hide Run;
    RunStep(m, s[0], s[1..], keepAll);
    RunStep(m.(state := Text), s[0], s[1..], keepAll);
  }

  /** How a text ends at the markup behind it: a name, an end tag or a processing instruction delivers it, a comment or
      declaration keeps it, and anything else is no markup. */
  predicate EndedBy(c: Code, m: Fields, m': Fields, text: Bytes) {
    if c == 47 || c == 63 || IsName(c) then
      m'.state == Markup && m'.text == [] && m'.texts == m.texts + (if text == [] then [] else [text])
    else m'.state == (if c == 33 then Markup else Failed) && m'.text == text && m'.texts == m.texts
  }

  /** Writing a text and parsing it up to the markup behind it, whatever that is: what is kept of the characters seen is
      delivered in one text event, is kept for later, or is left over when the parser fails. */
  lemma TextBeforeMarkup(m: Fields, codes: seq<Code>, p: Protect, encoding: Encoding, pieces: seq<Bytes>, tail: Bytes,
      keepAll: bool)
    requires m.state.Outside? && m.text == [] && p.amp && p.ltgt && 0 !in codes && tail != [] && Filled(pieces)
    requires Concat(pieces) == Serialized(EncodeAll(codes), p, encoding) + [60] + tail
    ensures EscapedAll(codes, p, encoding) <= Concat(pieces)
    ensures var markup := ReadPieces(Skip(pieces, |Serialized(EncodeAll(codes), p, encoding)| + 1));
            markup != []
            && EndedBy(markup[0], m, Run(m, ReadPieces(pieces), keepAll),
                       EncodeAll(Kept(Seen(codes, p, encoding, pieces), keepAll)))
  {
    hide Run, Encode, ReadPieces, Fed, EscapedAll, Serialized, Seen, Kept, ReadOne, EndedBy;
    SerializedCodes(codes, p, encoding);
    var text := EscapedAll(codes, p, encoding);
    var seen := Seen(codes, p, encoding, pieces);
    var after := Skip(pieces, |text|);
    assert Concat(after) == [60] + tail;
    ReadEscaped(codes, p, encoding, pieces);
    RawBytes([60]);
    ReadRaw([60], after);
    SkipSkip(pieces, |text|, 1);
    var rest := Skip(pieces, |text| + 1);
    assert Concat(rest) == tail;
    ReadHead(rest);
    var markup := ReadPieces(rest);
    SeenLacks(0, codes, p, encoding, pieces);
    var m1 := RunOutside(m, seen, p, encoding, [60 as Code] + markup, keepAll);
    StartOfMarkup(m1, markup, keepAll);
    NothingEncoded(Kept(seen, keepAll));
    EndedSame(markup[0], m, m1, Run(m1, [60 as Code] + markup, keepAll));
  }

  lemma StartOfMarkup(m: Fields, markup: seq<Code>, keepAll: bool)
    requires (m.state.Outside? || m.state.Text?) && markup != []
    ensures EndedBy(markup[0], m, Run(m, [60 as Code] + markup, keepAll), m.text)
  {
    RunStep(m, 60, markup, keepAll);
    assert markup == [markup[0]] + markup[1..];
    RunStep(m.(state := Enter), markup[0], markup[1..], keepAll);
  }

  lemma EndedSame(c: Code, m: Fields, m1: Fields, m': Fields)
    requires m1.texts == m.texts
    ensures EndedBy(c, m1, m', m1.text) == EndedBy(c, m, m', m1.text)
  {
  }

  /** Writing a text and parsing it up to the end tag delivers one text event with what is kept of the characters seen,
      or none if nothing is. */
  lemma TextReadBack(m: Fields, codes: seq<Code>, p: Protect, encoding: Encoding, pieces: seq<Bytes>, tail: Bytes,
      keepAll: bool)
    requires m.state.Outside? && m.text == [] && p.amp && p.ltgt && 0 !in codes && Filled(pieces)
    requires Concat(pieces) == Serialized(EncodeAll(codes), p, encoding) + [60, 47] + tail
    ensures EscapedAll(codes, p, encoding) <= Concat(pieces)
    ensures var kept := Kept(Seen(codes, p, encoding, pieces), keepAll);
            var m' := Run(m, ReadPieces(pieces), keepAll);
            m'.state == Markup && m'.texts == m.texts + (if kept == [] then [] else [EncodeAll(kept)])
  {
    hide Run, Encode, ReadPieces, Fed, EscapedAll, Serialized, Seen, Kept, ReadOne, IsName;
    var text := Serialized(EncodeAll(codes), p, encoding);
    assert Concat(pieces) == text + [60] + ([47] + tail);
    TextBeforeMarkup(m, codes, p, encoding, pieces, [47] + tail, keepAll);
    var rest := Skip(pieces, |text| + 1);
    assert Concat(rest) == [47] + tail;
    RawBytes([47]);
    ReadRaw([47], rest);
    NothingEncoded(Kept(Seen(codes, p, encoding, pieces), keepAll));
  }

  lemma {:induction false} SeenLacks(x: Code, codes: seq<Code>, p: Protect, encoding: Encoding, pieces: seq<Bytes>)
    requires Filled(pieces) && EscapedAll(codes, p, encoding) <= Concat(pieces) && x < 0x80 && x !in codes
    ensures x !in Seen(codes, p, encoding, pieces)
  {
    hide Encode, EscapedCode, Skip;
    if codes != [] {
      TextSplits(codes, p, encoding, pieces);
      SeenLacks(x, codes[1..], p, encoding, Skip(pieces, |EscapedCode(codes[0], p, encoding)|));
      if codes[0] >= 0x80 {
        CutCodes(codes[0]);
      }
    }
  }

  lemma NothingEncoded(codes: seq<Code>)
    ensures EncodeAll(codes) == [] <==> codes == []
  {
    if codes != [] {
      OneByte(codes[0]);
    }
  }

  // ----- at the end of the input -----

  /** The last character of a text is read, and then the text is delivered. */
  lemma LastCode(m: Fields, c: Code, p: Protect, encoding: Encoding, keepAll: bool)
    requires m.state.Text? && p.amp && p.ltgt && c != 0
    ensures Run(m, EscapedCodes(c, p, encoding), keepAll).texts
         == Pushed(m.(text := m.text + if c == 13 then [] else Encode(c))).texts
  {
    hide Run, Encode, Fed, Resolved, Meaning, EscapedCodes, Pushed;
    var s := EscapedCodes(c, p, encoding);
    if s == [c] {
      LastRaw(m, c, p, encoding, keepAll);
      assert s == [c] + [];
      RunStep(m, c, [], keepAll);
      RunEnd(Fed(m, c, true, keepAll), keepAll);
    } else {
      var name := EscapedName(c, p, encoding);
      assert s == [38 as Code] + name + [59 as Code] + [];
      var m' := AtSemicolon(m, name, [], keepAll);
      LastReference(m, name);
      RunEnd(m', keepAll);
      PushedTexts(m', m.(text := m.text + Encode(c)));
    }
  }

  lemma PushedTexts(m: Fields, m': Fields)
    requires m.text == m'.text && m.texts == m'.texts
    ensures Pushed(m).texts == Pushed(m').texts
  {
  }

  lemma LastRaw(m: Fields, c: Code, p: Protect, encoding: Encoding, keepAll: bool)
    requires m.state.Text? && p.amp && p.ltgt && EscapedCodes(c, p, encoding) == [c]
    ensures Fed(m, c, true, keepAll) == m.(text := m.text + if c == 13 then [] else Encode(c))
  {
    hide Encode;
    OneByte(c);
  }

  lemma LastReference(m: Fields, name: Bytes)
    requires m.state.Text? && Meaning(name) != []
    ensures var m' := Resolved(m.(before := m.state, entity := name, state := Entity), true);
            m'.state.Entity? && m'.text == m.text + Meaning(name) && m'.texts == m.texts
  {
    hide Put, ReferenceValue, Predefined;
  }

  lemma RunEnd(m: Fields, keepAll: bool)
    ensures Run(m, [], keepAll) == if Leaves(m.state) then m else Pushed(m)
  {
  }

  lemma {:induction false} EncodeJoin(a: seq<Code>, b: seq<Code>)
    ensures EncodeAll(a + b) == EncodeAll(a) + EncodeAll(b)
  {
    hide Encode;
    if a == [] {
      assert a + b == b;
    } else {
      assert (a + b)[0] == a[0] && (a + b)[1..] == a[1..] + b;
      EncodeJoin(a[1..], b);
    }
  }

  lemma {:induction false} NoReturnsJoin(a: seq<Code>, b: seq<Code>)
    ensures NoReturns(a + b) == NoReturns(a) + NoReturns(b)
  {
    if a == [] {
      assert a + b == b;
    } else {
      assert (a + b)[0] == a[0] && (a + b)[1..] == a[1..] + b;
      NoReturnsJoin(a[1..], b);
    }
  }

  lemma {:induction false} DropSpacesJoin(a: seq<Code>, b: seq<Code>)
    ensures DropSpaces(a + b) == if DropSpaces(a) == [] then DropSpaces(b) else DropSpaces(a) + b
  {
    if a == [] {
      assert a + b == b;
    } else {
      assert (a + b)[0] == a[0] && (a + b)[1..] == a[1..] + b;
      DropSpacesJoin(a[1..], b);
    }
  }

  /** What the last character adds to what is kept. */
  lemma KeptLast(codes: seq<Code>, c: Code, keepAll: bool)
    ensures var head := if keepAll then codes else DropSpaces(codes);
            EncodeAll(Kept(codes + [c], keepAll)) == EncodeAll(Kept(codes, keepAll))
                + if c == 13 || (head == [] && !keepAll && IsSpace(c)) then [] else Encode(c)
  {
    hide Encode;
    assert [c][1..] == [];
    DropSpacesJoin(codes, [c]);
    NoReturnsJoin(if keepAll then codes else DropSpaces(codes), [c]);
    var last: seq<Code> := if c == 13 then [] else [c];
    assert NoReturns([c]) == last;
    EncodeJoin(Kept(codes, keepAll), last);
    assert EncodeAll([c]) == Encode(c);
  }

  /** Writing a text and parsing it with nothing behind it delivers one text event with what is kept of the characters
      seen, or none if nothing is. */
  lemma TextAtEnd(m: Fields, codes: seq<Code>, p: Protect, encoding: Encoding, pieces: seq<Bytes>, keepAll: bool)
    requires m.state.Outside? && m.text == [] && p.amp && p.ltgt && 0 !in codes && Filled(pieces)
    requires Concat(pieces) == Serialized(EncodeAll(codes), p, encoding)
    ensures EscapedAll(codes, p, encoding) <= Concat(pieces)
    ensures var kept := Kept(Seen(codes, p, encoding, pieces), keepAll);
            Run(m, ReadPieces(pieces), keepAll).texts == m.texts + if kept == [] then [] else [EncodeAll(kept)]
  {
    hide Run, Encode, ReadPieces, Fed, EscapedAll, Serialized, Seen, Kept, ReadOne, EscapedCodesAll;
    SerializedCodes(codes, p, encoding);
    ReadEscaped(codes, p, encoding, pieces);
    NoneBehind(Skip(pieces, |EscapedAll(codes, p, encoding)|));
    var seen := Seen(codes, p, encoding, pieces);
    assert ReadPieces(pieces) == EscapedCodesAll(seen, p, encoding);
    SeenLacks(0, codes, p, encoding, pieces);
    NothingEncoded(Kept(seen, keepAll));
    CodesAtEnd(m, seen, p, encoding, keepAll);
  }

  lemma NoneBehind(pieces: seq<Bytes>)
    requires Filled(pieces) && Concat(pieces) == []
    ensures ReadPieces(pieces) == []
  {
  }

  lemma CodesAtEnd(m: Fields, codes: seq<Code>, p: Protect, encoding: Encoding, keepAll: bool)
    requires m.state.Outside? && m.text == [] && p.amp && p.ltgt && 0 !in codes
    ensures var text := EncodeAll(Kept(codes, keepAll));
            Run(m, EscapedCodesAll(codes, p, encoding), keepAll).texts == m.texts + if text == [] then [] else [text]
  {
    hide Run, Encode, Fed, Kept, EscapedCodesAll, EscapedCodes;
    if codes == [] {
      NothingAtEnd(m, p, encoding, keepAll);
    } else {
      var n := |codes| - 1;
      var c := codes[n];
      assert codes == codes[..n] + [c];
      EscapedCodesJoin(codes[..n], [c], p, encoding);
      OneCode(c, p, encoding);
      SomeCodes(c, p, encoding);
      var m1 := RunOutside(m, codes[..n], p, encoding, EscapedCodes(c, p, encoding), keepAll);
      KeptLast(codes[..n], c, keepAll);
      if m1.state.Outside? && !keepAll && IsSpace(c) {
        NothingKept(codes[..n], keepAll);
        SpaceAtEnd(m1, c, p, encoding, keepAll);
      } else {
        if m1.state.Outside? {
          NothingKept(codes[..n], keepAll);
          assert EscapedCodes(c, p, encoding) + [] == EscapedCodes(c, p, encoding);
          FirstCode(m1, c, p, encoding, [], keepAll);
        }
        LastCode(m1.(state := Text), c, p, encoding, keepAll);
      }
    }
  }

  lemma NothingAtEnd(m: Fields, p: Protect, encoding: Encoding, keepAll: bool)
    requires m.state.Outside? && m.text == []
    ensures Run(m, EscapedCodesAll([], p, encoding), keepAll) == m && EncodeAll(Kept([], keepAll)) == []
  {
  }

  lemma SomeCodes(c: Code, p: Protect, encoding: Encoding)
    ensures EscapedCodes(c, p, encoding) != []
  {
  }

  lemma NothingKept(codes: seq<Code>, keepAll: bool)
    requires (if keepAll then codes else DropSpaces(codes)) == []
    ensures EncodeAll(Kept(codes, keepAll)) == []
  {
  }

  lemma SpaceAtEnd(m: Fields, c: Code, p: Protect, encoding: Encoding, keepAll: bool)
    requires m.state.Outside? && !keepAll && IsSpace(c)
    ensures Run(m, EscapedCodes(c, p, encoding), keepAll) == Pushed(m)
  {
    assert EscapedCodes(c, p, encoding) == [c] + [];
    RunStep(m, c, [], keepAll);
  }

  // ----- when nothing is lost -----

  lemma {:induction false} NoReturnsAll(codes: seq<Code>)
    ensures |NoReturns(codes)| <= |codes| && (NoReturns(codes) == codes <==> 13 !in codes)
  {
    if codes != [] {
      NoReturnsAll(codes[1..]);
      assert codes == [codes[0]] + codes[1..];
      if codes[0] != 13 {
        assert NoReturns(codes)[1..] == NoReturns(codes[1..]);
      }
    }
  }

  lemma {:induction false} DropSpacesShorter(codes: seq<Code>)
    ensures |DropSpaces(codes)| <= |codes|
  {
    if codes != [] {
      DropSpacesShorter(codes[1..]);
    }
  }

  lemma KeptAll(codes: seq<Code>, keepAll: bool)
    ensures Kept(codes, keepAll) == codes <==> 13 !in codes && (keepAll || codes == [] || !IsSpace(codes[0]))
  {
    NoReturnsAll(codes);
    NoReturnsAll(DropSpaces(codes));
    if codes != [] {
      DropSpacesShorter(codes[1..]);
    }
  }

  lemma {:induction false} KeptWides(codes: seq<Code>, keepAll: bool)
    ensures Wides(Kept(codes, keepAll)) == Wides(codes)
  {
    if !keepAll && codes != [] && IsSpace(codes[0]) {
      KeptWides(codes[1..], keepAll);
    } else {
      NoReturnsWides(codes);
    }
  }

  lemma {:induction false} NoReturnsWides(codes: seq<Code>)
    ensures Wides(NoReturns(codes)) == Wides(codes)
  {
    if codes != [] {
      NoReturnsWides(codes[1..]);
      if codes[0] != 13 {
        assert NoReturns(codes)[0] == codes[0] && NoReturns(codes)[1..] == NoReturns(codes[1..]);
      } else {
        assert NoReturns(codes) == NoReturns(codes[1..]);
      }
    }
  }

  /** Escaping and parsing a text is the identity if and only if no window ends inside a character of the text, the
      text holds no carriage return and, unless all text is kept, it does not start with space. */
  lemma TextRoundTrip(m: Fields, codes: seq<Code>, p: Protect, encoding: Encoding, pieces: seq<Bytes>, tail: Bytes,
      keepAll: bool)
    requires m.state.Outside? && m.text == [] && p.amp && p.ltgt && 0 !in codes && codes != [] && Filled(pieces)
    requires Concat(pieces) == Serialized(EncodeAll(codes), p, encoding) + [60, 47] + tail
    ensures var same := Run(m, ReadPieces(pieces), keepAll).texts == m.texts + [EncodeAll(codes)];
            same <==>
              Whole(pieces, |Serialized(EncodeAll(codes), p, encoding)|) && 13 !in codes
              && (keepAll || !IsSpace(codes[0]))
  {
    hide Run, Encode, ReadPieces, Serialized, EncodeAll, Kept, Seen, Whole, EscapedAll, Wides;
    TextReadBack(m, codes, p, encoding, pieces, tail, keepAll);
    SerializedCodes(codes, p, encoding);
    var seen := Seen(codes, p, encoding, pieces);
    var kept := Kept(seen, keepAll);
    SeenWhole(codes, p, encoding, pieces);
    KeptWides(seen, keepAll);
    KeptAll(codes, keepAll);
    if kept != [] {
      SameEncoding(kept, codes);
      SameLast(m.texts, EncodeAll(kept), EncodeAll(codes));
    }
  }

  lemma SameEncoding(a: seq<Code>, b: seq<Code>)
    ensures EncodeAll(a) == EncodeAll(b) <==> a == b
  {
    ReadEncoded(a);
    ReadEncoded(b);
  }

  lemma SameLast(s: seq<Bytes>, a: Bytes, b: Bytes)
    ensures s + [a] == s + [b] <==> a == b
  {
    assert (s + [a])[|s|] == a && (s + [b])[|s|] == b;
  }

  /** A value between quotes q, in the state the parser is in behind the first of them. */
  predicate Quoted(m: Fields, q: Byte, p: Protect) {
    m.state.AttrValue? && m.delimiter == q && m.value == [] && (q == 34 || q == 39) && (q == 34 ==> p.quote)
  }

  /** What the parser delivers of an escaped attribute value that does not hold its delimiter unprotected. */
  lemma ValueReadBack(m: Fields, codes: seq<Code>, q: Byte, p: Protect, encoding: Encoding, pieces: seq<Bytes>,
      tail: Bytes, keepAll: bool)
    requires Quoted(m, q, p) && p.amp && 0 !in codes && (q == 39 ==> 39 !in codes) && tail != [] && Filled(pieces)
    requires Concat(pieces) == Serialized(EncodeAll(codes), p, encoding) + [q] + tail
    ensures EscapedAll(codes, p, encoding) <= Concat(pieces)
    ensures var m' := Run(m, ReadPieces(pieces), keepAll);
            m'.state == Inside && m'.values == m.values + [EncodeAll(Seen(codes, p, encoding, pieces))]
  {
    hide Run, Encode, ReadPieces, Fed, EscapedAll, Serialized, Seen, ReadOne;
    SerializedCodes(codes, p, encoding);
    var text := EscapedAll(codes, p, encoding);
    var seen := Seen(codes, p, encoding, pieces);
    var after := Skip(pieces, |text|);
    assert Concat(after) == [q] + tail;
    ReadEscaped(codes, p, encoding, pieces);
    RawBytes([q]);
    ReadRaw([q], after);
    var rest := Skip(after, 1);
    assert Concat(rest) == tail;
    ReadHead(rest);
    SeenLacks(0, codes, p, encoding, pieces);
    if q == 39 {
      SeenLacks(39, codes, p, encoding, pieces);
    }
    var m1 := RunCodes(m, seen, p, encoding, [q as Code] + ReadPieces(rest), keepAll);
    assert m1.value == EncodeAll(seen);
    EndQuote(m1, q, ReadPieces(rest), keepAll);
  }

  /** The part of a value in front of its first single quote. */
  function UpToQuote(codes: seq<Code>): (r: seq<Code>)
    ensures r <= codes && 39 !in r && (if 39 in codes then r + [39] <= codes else r == codes)
  {
    if codes == [] || codes[0] == 39 then [] else [codes[0]] + UpToQuote(codes[1..])
  }

  /** Escaping and parsing an attribute value is the identity, carriage returns included, if and only if no window ends
      inside a character of the value and, between single quotes, the value holds none. */
  lemma ValueRoundTrip(m: Fields, codes: seq<Code>, q: Byte, p: Protect, encoding: Encoding, pieces: seq<Bytes>,
      tail: Bytes, keepAll: bool)
    requires Quoted(m, q, p) && p.amp && 0 !in codes && tail != [] && Filled(pieces)
    requires Concat(pieces) == Serialized(EncodeAll(codes), p, encoding) + [q] + tail
    ensures var m' := Run(m, ReadPieces(pieces), keepAll);
            m'.state == Inside
            && (m'.values == m.values + [EncodeAll(codes)] <==>
                  Whole(pieces, |Serialized(EncodeAll(codes), p, encoding)|) && (q == 39 ==> 39 !in codes))
  {
    hide Run, Encode, ReadPieces, Serialized, EncodeAll, Seen, Whole, EscapedAll, Wides;
    if q == 39 && 39 in codes {
      QuoteInside(m, codes, p, encoding, pieces, tail, keepAll);
    } else {
      ValueReadBack(m, codes, q, p, encoding, pieces, tail, keepAll);
      SerializedCodes(codes, p, encoding);
      var seen := Seen(codes, p, encoding, pieces);
      SeenWhole(codes, p, encoding, pieces);
      SameEncoding(seen, codes);
      SameLast(m.values, EncodeAll(seen), EncodeAll(codes));
    }
  }

  /** Between single quotes, a value ends at the first one it holds. */
  lemma QuoteInside(m: Fields, codes: seq<Code>, p: Protect, encoding: Encoding, pieces: seq<Bytes>, tail: Bytes,
      keepAll: bool)
    requires Quoted(m, 39, p) && p.amp && 0 !in codes && 39 in codes && Filled(pieces) && tail != []
    requires Concat(pieces) == Serialized(EncodeAll(codes), p, encoding) + [39] + tail
    ensures EscapedAll(UpToQuote(codes), p, encoding) <= Concat(pieces)
    ensures var m' := Run(m, ReadPieces(pieces), keepAll);
            && m'.state == Inside && m'.values != m.values + [EncodeAll(codes)]
            && m'.values == m.values + [EncodeAll(Seen(UpToQuote(codes), p, encoding, pieces))]
  {
    hide Run, Encode, ReadPieces, Serialized, EncodeAll, Seen, EscapedAll;
    var head := UpToQuote(codes);
    var rest := codes[|head| + 1..];
    var more := EscapedAll(rest, p, encoding) + [39] + tail;
    SerializedCodes(codes, p, encoding);
    SerializedCodes(head, p, encoding);
    EscapedSplit(codes, head, rest, p, encoding);
    assert Concat(pieces) == Serialized(EncodeAll(head), p, encoding) + [39] + more;
    ValueReadBack(m, head, 39, p, encoding, pieces, more, keepAll);
    SeenLacks(39, head, p, encoding, pieces);
    var seen := Seen(head, p, encoding, pieces);
    SameEncoding(seen, codes);
    SameLast(m.values, EncodeAll(seen), EncodeAll(codes));
  }

  lemma {:induction false} EscapedJoin(a: seq<Code>, b: seq<Code>, p: Protect, encoding: Encoding)
    ensures EscapedAll(a + b, p, encoding) == EscapedAll(a, p, encoding) + EscapedAll(b, p, encoding)
  {
    hide EscapedCode;
    if a == [] {
      assert a + b == b;
    } else {
      assert (a + b)[0] == a[0] && (a + b)[1..] == a[1..] + b;
      EscapedJoin(a[1..], b, p, encoding);
    }
  }

  lemma EscapedQuote(p: Protect, encoding: Encoding)
    ensures EscapedAll([39], p, encoding) == [39]
  {
    assert [39 as Code][1..] == [];
  }

  lemma EscapedSplit(codes: seq<Code>, head: seq<Code>, rest: seq<Code>, p: Protect, encoding: Encoding)
    requires codes == head + [39 as Code] + rest
    ensures EscapedAll(codes, p, encoding) == EscapedAll(head, p, encoding) + [39] + EscapedAll(rest, p, encoding)
  {
    hide EscapedCode, EscapedAll;
    EscapedJoin(head + [39 as Code], rest, p, encoding);
    EscapedJoin(head, [39], p, encoding);
    EscapedQuote(p, encoding);
  }

  /** Output for US-ASCII meets the condition of both round trips, wherever the windows end. */
  lemma AsciiRoundTrips(codes: seq<Code>, p: Protect, pieces: seq<Bytes>, tail: Bytes)
    requires Filled(pieces) && Concat(pieces) == Serialized(EncodeAll(codes), p, US_ASCII) + tail
    ensures Whole(pieces, |Serialized(EncodeAll(codes), p, US_ASCII)|)
  {
    hide EscapedAll, Whole;
    SerializedCodes(codes, p, US_ASCII);
    AsciiIsWhole(codes, p, pieces);
  }

  /** A text of one character that does not come back: the first of its two bytes is the last of a window. */
  lemma CutText(m: Fields, p: Protect, keepAll: bool)
    requires m.state.Outside? && m.text == [] && p.amp && p.ltgt
    ensures var text: Bytes := [0xC3, 0xA9];
            var pieces: seq<Bytes> := [[0xC3], [0xA9, 60, 47]];
            text == EncodeAll([0xE9]) && Concat(pieces) == Serialized(text, p, UTF_8) + [60, 47]
            && Run(m, ReadPieces(pieces), keepAll).texts == m.texts + [[0xC3, 0x83, 0xC2, 0xA9]]
  {
    hide Run, ReadPieces, Seen, Kept, Encode, EncodeAll, Concat, Serialized;
    var pieces: seq<Bytes> := [[0xC3], [0xA9, 60, 47]];
    CutWindows(p);
    TextReadBack(m, [0xE9], p, UTF_8, pieces, [], keepAll);
    CutSeen(p);
    CutKept(keepAll);
  }

  lemma CutWindows(p: Protect)
    requires p.amp && p.ltgt
    ensures var pieces: seq<Bytes> := [[0xC3], [0xA9, 60, 47]];
            && EncodeAll([0xE9]) == [0xC3, 0xA9] && Serialized([0xC3, 0xA9], p, UTF_8) == [0xC3, 0xA9]
            && EscapedAll([0xE9], p, UTF_8) == [0xC3, 0xA9] && Concat(pieces) == [0xC3, 0xA9, 60, 47]
  {
    hide Serialized;
    var pieces: seq<Bytes> := [[0xC3], [0xA9, 60, 47]];
    SerializedCodes([0xE9], p, UTF_8);
    assert [0xE9 as Code][1..] == [];
    assert Encode(0xE9) == [0xC3, 0xA9];
    assert Concat(pieces) == pieces[0] + Concat(pieces[1..]);
    assert Concat(pieces[1..]) == pieces[1] + Concat([]);
  }

  lemma CutSeen(p: Protect)
    requires p.amp && p.ltgt
    ensures var pieces: seq<Bytes> := [[0xC3], [0xA9, 60, 47]];
            && EscapedAll([0xE9], p, UTF_8) <= Concat(pieces) && Seen([0xE9], p, UTF_8, pieces) == [0xC3, 0xA9]
  {
    hide Serialized, EncodeAll, Concat, EscapedAll;
    CutWindows(p);
    assert [0xE9 as Code][1..] == [];
    assert Encode(0xE9) == [0xC3, 0xA9];
  }

  lemma CutKept(keepAll: bool)
    ensures Kept([0xC3, 0xA9], keepAll) == [0xC3, 0xA9] && EncodeAll([0xC3, 0xA9]) == [0xC3, 0x83, 0xC2, 0xA9]
  {
    var seen: seq<Code> := [0xC3, 0xA9];
    assert seen[1..] == [0xA9] && seen[1..][1..] == [];
    assert EncodeAll(seen[1..]) == [0xC2, 0xA9];
  }

  lemma EndQuote(m: Fields, q: Byte, tail: seq<Code>, keepAll: bool)
    requires m.state.AttrValue? && m.delimiter == q && tail != []
    ensures var m' := Run(m, [q as Code] + tail, keepAll); m'.state == Inside && m'.values == m.values + [m.value]
  {
    RunStep(m, q, tail, keepAll);
  }
}
