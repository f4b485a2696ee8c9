/** What references give that no writer here emits: any digits in either base, and any predefined name (sections 4.1
    and 4.6 of XML 1.0). */
module References {
  import opened EscapeRoundTrip
  import opened Parsing
  import opened Utf8

  /** A byte that writes digit d: letters may be small or large. */
  predicate Writes(b: Byte, d: nat, base: nat) {
    d < base && if d < 10 then b == 48 + d else d < 16 && (b == 87 + d || b == 55 + d)
  }

  predicate WritesAll(s: Bytes, digits: seq<nat>, base: nat) {
    |s| == |digits| && forall k :: 0 <= k < |s| ==> Writes(s[k], digits[k], base)
  }

  /** The number that digits stand for; the last one has the least weight. */
  function Number(digits: seq<nat>, base: nat): nat {
    if digits == [] then 0 else Number(digits[..|digits| - 1], base) * base + digits[|digits| - 1]
  }

  lemma {:induction false} AtoxJoin(s: Bytes, t: Bytes, acc: nat)
    requires forall k :: 0 <= k < |s| ==> HexDigit(s[k]) >= 0
    ensures Atox(s + t, acc) == Atox(t, Atox(s, acc))
  {
    if s == [] {
      assert s + t == t;
    } else {
      assert (s + t)[0] == s[0] && (s + t)[1..] == s[1..] + t;
      AtoxJoin(s[1..], t, acc * 16 + HexDigit(s[0]));
    }
  }

  /** Hexadecimal digits in either case, with any zeros in front. */
  lemma {:induction false} AtoxNumber(s: Bytes, digits: seq<nat>)
    requires WritesAll(s, digits, 16)
    ensures Atox(s, 0) == Number(digits, 16)
  {
    if s != [] {
      var n := |s| - 1;
      AtoxNumber(s[..n], digits[..n]);
      assert s == s[..n] + [s[n]] && Writes(s[n], digits[n], 16);
      forall k | 0 <= k < n
        ensures HexDigit(s[..n][k]) >= 0
      {
        assert Writes(s[k], digits[k], 16);
      }
      AtoxJoin(s[..n], [s[n]], 0);
      assert [s[n]][1..] == [];
    }
  }

  lemma {:induction false} AtoiNumber(s: Bytes, digits: seq<nat>)
    requires WritesAll(s, digits, 10)
    ensures Atoi(s, 0) == Number(digits, 10)
  {
    if s != [] {
      var n := |s| - 1;
      AtoiNumber(s[..n], digits[..n]);
      assert s == s[..n] + [s[n]] && Writes(s[n], digits[n], 10);
      forall k | 0 <= k < n
        ensures 48 <= s[..n][k] < 58
      {
        assert Writes(s[k], digits[k], 10);
      }
      AtoiJoin(s[..n], [s[n]], 0);
      assert [s[n]][1..] == [];
    }
  }

  /** The name of a character reference, without '&' and ';'. */
  function ReferenceName(s: Bytes, hex: bool): Bytes {
    if hex then [35, 120] + s else [35] + s
  }

  lemma NameValue(s: Bytes, digits: seq<nat>, hex: bool)
    requires WritesAll(s, digits, if hex then 16 else 10)
    ensures var name := ReferenceName(s, hex);
            && name != [] && name[0] == 35 && ReferenceValue(name[1..]) == Number(digits, if hex then 16 else 10)
            && forall k :: 0 <= k < |name| ==> name[k] < 0x80 && name[k] != 59
  {
    var name := ReferenceName(s, hex);
    if hex {
      assert name[1..] == [120] + s && name[1..][1..] == s;
      AtoxNumber(s, digits);
    } else {
      assert name[1..] == s;
      AtoiNumber(s, digits);
      assert s != [] ==> Writes(s[0], digits[0], 10);
    }
    forall k | 0 <= k < |name|
      ensures name[k] < 0x80 && name[k] != 59
    {
      var j := if hex then k - 2 else k - 1;
      assert j >= 0 ==> name[k] == s[j] && Writes(s[j], digits[j], if hex then 16 else 10);
    }
  }

  /** A character reference gives the character with its number, in a text or a value; with the number 0, or one too
      large for UTF-8, the parser fails. */
  lemma CharacterReferenceRead(m: Fields, s: Bytes, digits: seq<nat>, hex: bool, rest: seq<Code>, keepAll: bool)
      returns (m': Fields)
    requires Reading(m) && rest != [] && WritesAll(s, digits, if hex then 16 else 10)
    ensures var val := Number(digits, if hex then 16 else 10);
            var end := Run(m, [38 as Code] + ReferenceName(s, hex) + [59 as Code] + rest, keepAll);
            if 0 < val < 0x4000000 then end == Run(m', rest, keepAll) && Grown(m, m', Encode(val))
            else end.state == Failed && end.texts == m.texts && end.values == m.values
  {
    hide Run, ReferenceName, ReferenceValue, Encode, Predefined, Put;
    var name := ReferenceName(s, hex);
    var val := Number(digits, if hex then 16 else 10);
    if 0 < val < 0x4000000 {
      PutIs(val);
    }
    NameValue(s, digits, hex);
    m' := AtSemicolon(m, name, rest, keepAll);
    Run1(m', rest, keepAll);
  }

  lemma Run1(m: Fields, rest: seq<Code>, keepAll: bool)
    ensures Leaves(m.state) ==> Run(m, rest, keepAll) == m
  {
  }

  /** The five names of XML and their characters; other names are looked up elsewhere. */
  const XML_ENTITIES: map<Bytes, Byte> := map[
    [108, 116] := 60,             // lt
    [103, 116] := 62,             // gt
    [97, 109, 112] := 38,         // amp
    [113, 117, 111, 116] := 34,   // quot
    [97, 112, 111, 115] := 39]    // apos

  lemma NamedEntityRead(m: Fields, name: Bytes, rest: seq<Code>, keepAll: bool) returns (m': Fields)
    requires Reading(m) && rest != [] && (name != [] ==> name[0] != 35)
          && forall k :: 0 <= k < |name| ==> name[k] < 0x80 && name[k] != 59
    ensures var end := Run(m, [38 as Code] + name + [59 as Code] + rest, keepAll);
            if name in XML_ENTITIES then end == Run(m', rest, keepAll) && Grown(m, m', [XML_ENTITIES[name]])
            else end.state == Elsewhere && end.texts == m.texts && end.values == m.values
  {
    hide Run, ReferenceValue, Put;
    m' := AtSemicolon(m, name, rest, keepAll);
    Run1(m', rest, keepAll);
  }
}
