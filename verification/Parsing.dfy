/** The text, attribute value and entity states of the parser, on UTF-8 input that comes in windows. */
module Parsing {
  import opened Reader
  import opened Utf8

  /** Elsewhere stands for entities that are not predefined; Markup and Inside for the states of the markup itself. */
  datatype State = Outside | Text | Enter | Markup | AttrValue | Inside | Entity | Elsewhere | Failed | Unused

  /** The parser's buffers, and the text and attribute events it has raised. */
  datatype Fields = Fields(state: State, before: State, text: Bytes, value: Bytes, entity: Bytes, delimiter: int,
      texts: seq<Bytes>, values: seq<Bytes>)

  // ----- one character -----

  function Put(s: Bytes, c: nat): Bytes
    requires c < 0x4000000
  {
    if c < 0x80 then s + [c] else s + Encode(c)
  }

  function IsSpace(c: nat): bool {
    c == 32 || c == 10 || c == 9 || c == 13
  }

  /** A character that can start a name. */
  function IsName(c: nat): bool {
    65 <= c <= 90 || 97 <= c <= 122 || 48 <= c <= 57 || c == 58 || c == 45 || c == 46 || c == 95 || c >= 0x80
  }

  function Pushed(m: Fields): Fields {
    if m.text == [] then m else m.(texts := m.texts + [m.text], text := [])
  }

  function Extended(m: Fields, s: Bytes): Fields {
    if m.before.Text? then m.(text := m.text + s) else m.(value := m.value + s)
  }

  function Atoi(s: Bytes, acc: nat): nat {
    if s == [] || !(48 <= s[0] < 58) then acc else Atoi(s[1..], acc * 10 + (s[0] - 48))
  }

  function HexDigit(b: Byte): int {
    if 48 <= b < 58 then b - 48 else if 97 <= b < 103 then b - 87 else if 65 <= b < 71 then b - 55 else -1
  }

  function Atox(s: Bytes, acc: nat): nat {
    if s == [] || HexDigit(s[0]) < 0 then acc else Atox(s[1..], acc * 16 + HexDigit(s[0]))
  }

  /** The value of a character reference, without its '#'. */
  function ReferenceValue(s: Bytes): nat {
    if s != [] && s[0] == 120 then Atox(s[1..], 0) else Atoi(s, 0)
  }

  /** initEntityTable. */
  function Predefined(name: Bytes): Bytes {
    if name == [108, 116] then [60]
    else if name == [103, 116] then [62]
    else if name == [97, 109, 112] then [38]
    else if name == [113, 117, 111, 116] then [34]
    else if name == [97, 112, 111, 115] then [39]
    else []
  }

  /** The ';' that ends an entity; the state changes only if there is a next character. */
  function Resolved(m: Fields, last: bool): Fields {
    if m.entity != [] && m.entity[0] == 35 then
      var val := ReferenceValue(m.entity[1..]);
      if val == 0 || val >= 0x4000000 then m.(state := Failed)
      else Extended(m, Put([], val)).(state := if last then Entity else m.before)
    else if Predefined(m.entity) != [] then
      Extended(m, Predefined(m.entity)).(state := if last then Entity else m.before, before := if last then m.before
          else Unused)
    else m.(state := Elsewhere)
  }

  /** One character in the text state. */
  function FedText(m: Fields, c: Code, last: bool): Fields {
    if c == 38 then if last then m else m.(before := Text, entity := [], state := Entity)
    else if c == 60 then if last then m else m.(state := Enter)
    else if c == 13 then m
    else m.(text := Put(m.text, c))
  }

  /** What one character does; `last` says that no character follows it. */
  function Fed(m: Fields, c: Code, last: bool, keepAll: bool): Fields {
    match m.state
    case Outside =>
      if c == 60 then if last then m else m.(state := Enter)
      else if !keepAll && IsSpace(c) then m
      else FedText(m.(text := [], state := Text), c, last)
    case Text => FedText(m, c, last)
    case Enter =>
      if c == 63 || c == 47 || IsName(c) then Pushed(m).(state := Markup)
      else if c == 33 then m.(state := Markup)
      else m.(state := Failed)
    case AttrValue =>
      if c == m.delimiter then m.(values := m.values + [m.value], state := if last then AttrValue else Inside)
      else if c == 38 then if last then m else m.(before := AttrValue, entity := [], state := Entity)
      else m.(value := Put(m.value, c))
    case Entity => if c == 59 then Resolved(m, last) else m.(entity := Put(m.entity, c))
    case _ => m
  }

  predicate Leaves(s: State) {
    !(s.Outside? || s.Text? || s.Enter? || s.AttrValue? || s.Entity?)
  }

  /** The parser on a whole input, until it leaves these states or the input ends. */
  function Run(m: Fields, codes: seq<Code>, keepAll: bool): Fields
    decreases |codes|
  {
    if Leaves(m.state) then m
    else if codes == [] then Pushed(m)
    else Run(Fed(m, codes[0], |codes| == 1, keepAll), codes[1..], keepAll)
  }

  lemma RunStep(m: Fields, c: Code, rest: seq<Code>, keepAll: bool)
    requires !Leaves(m.state)
    ensures Run(m, [c] + rest, keepAll) == Run(Fed(m, c, rest == [], keepAll), rest, keepAll)
  {
    assert ([c] + rest)[1..] == rest;
  }

  /** An entity that leaves these states does so whether or not more input follows. */
  lemma LeavesAnyway(m: Fields, c: Code, keepAll: bool)
    ensures m.state.Entity? && Leaves(Fed(m, c, true, keepAll).state) ==>
          Fed(m, c, false, keepAll) == Fed(m, c, true, keepAll)
  {
    hide Put, Predefined, ReferenceValue, Extended;
  }

  lemma NothingLeft(s: Bytes)
    ensures ReadAll(s[|s|..]) == []
  {
  }

  // ----- the machine -----

  class Parser {
    const keepAllText: bool
    var buffer: Bytes          // the window of the reader
    var bufferIdx: nat
    var pieces: seq<Bytes>     // what further fills will give
    var curChar: Code
    var state: State
    var stateBeforeEntity: State
    var text: Bytes
    var value: Bytes
    var entity: Bytes
    var attrValueDelimiter: int
    var texts: seq<Bytes>      // eventText
    var values: seq<Bytes>     // the values of eventAttr

    constructor (pieces: seq<Bytes>, keepAllText: bool)
      requires Filled(pieces)
      ensures Ready() && Left() == ReadPieces(pieces) && this.keepAllText == keepAllText
      ensures Now() == Fields(Outside, Unused, [], [], [], 0, [], [])
    {
      this.pieces, this.keepAllText := pieces, keepAllText;
      buffer, bufferIdx, curChar := [], 0, 0;
      state, stateBeforeEntity := Outside, Unused;
      text, value, entity, attrValueDelimiter, texts, values := [], [], [], 0, [], [];
    }

    ghost function Now(): Fields
      reads this
    {
      Fields(state, stateBeforeEntity, text, value, entity, attrValueDelimiter, texts, values)
    }

    /** An entity is read for a text or a value. */
    ghost predicate Ready()
      reads this
    {
      HasWindow() && (state.Entity? ==> stateBeforeEntity.Text? || stateBeforeEntity.AttrValue?)
    }

    ghost predicate HasWindow()
      reads `buffer, `bufferIdx, `pieces
    {
      bufferIdx <= |buffer| && Filled(pieces)
    }

    /** The characters that are not read yet. */
    ghost function Left(): seq<Code>
      requires HasWindow()
      reads `buffer, `bufferIdx, `pieces
    {
      ReadAll(buffer[bufferIdx..]) + ReadPieces(pieces)
    }

    /** The characters from the current one on. */
    ghost function Ahead(): seq<Code>
      requires HasWindow()
      reads this
    {
      [curChar] + Left()
    }

    /** fill: the next window, or none. */
    method Fill() returns (filled: bool)
      requires HasWindow() && bufferIdx == |buffer|
      modifies `buffer, `bufferIdx, `pieces
      ensures HasWindow() && Left() == old(Left()) && filled == (old(pieces) != []) == (bufferIdx < |buffer|)
    {
      NothingLeft(buffer);
      buffer, bufferIdx := [], 0;
      if pieces == [] {
        return false;
      }
      buffer, pieces := pieces[0], pieces[1..];
      assert buffer[0..] == buffer;
      return true;
    }

    /** isFinished. */
    method IsFinished() returns (finished: bool)
      requires HasWindow()
      modifies `buffer, `bufferIdx, `pieces
      ensures HasWindow() && Left() == old(Left()) && finished == (bufferIdx == |buffer|) == (Left() == [])
    {
      hide ReadOne;
      if bufferIdx < |buffer| {
        return false;
      }
      var filled := Fill();
      finished := !filled;
    }

    /** nextChar: the next character, unless the input is finished. */
    method NextChar() returns (more: bool)
      requires HasWindow()
      modifies `buffer, `bufferIdx, `pieces, `curChar
      ensures HasWindow() && Consumed(old(Left()), more)
      ensures !more ==> curChar == old(curChar)
    {
      hide ReadOne;
      var finished := IsFinished();
      if finished {
        return false;
      }
      ghost var s := buffer[bufferIdx..];
      var d := ReadOne(buffer[bufferIdx..]);
      assert buffer[bufferIdx + d.bytes..] == s[d.bytes..];
      curChar := d.code;
      bufferIdx := bufferIdx + d.bytes;
      return true;
    }

    method PushText()
      modifies `text, `texts
      ensures Now() == Pushed(old(Now()))
    {
      if text != [] {
        texts := texts + [text];
        text := [];
      }
    }

    /** A text or attribute value grows by what an entity stands for. */
    method ExtendTextValue(s: Bytes)
      modifies `text, `value
      ensures Now() == Extended(old(Now()), s)
    {
      if stateBeforeEntity.Text? {
        text := text + s;
      } else {
        value := value + s;
      }
    }

    /** The Text state. */
    method StepText() returns (more: bool)
      requires HasWindow() && state.Text?
      modifies this
      ensures Stepped(old(Now()), old(curChar), more)
      ensures Ready() && !Leaves(state) && Consumed(old(Left()), more)
    {
      hide Put, Predefined, ReferenceValue, Extended, Resolved, Left, Filled;
      if curChar == 38 {
        more := NextChar();
        if !more {
          return;
        }
        stateBeforeEntity := Text;
        entity := [];
        state := Entity;
        return;
      }
      if curChar == 60 {
        more := NextChar();
        if !more {
          return;
        }
        state := Enter;
        return;
      }
      if curChar == 13 {
        more := NextChar();
        return;
      }
      text := Put(text, curChar);
      more := NextChar();
    }

    /** A step did what the specification says for the character that was current. */
    ghost predicate Stepped(was: Fields, c: Code, more: bool)
      reads this
    {
      Now() == Fed(was, c, !more, keepAllText)
    }

    /** The first of the characters that were left is the current one, unless there was none. */
    ghost predicate Consumed(left: seq<Code>, more: bool)
      requires HasWindow()
      reads this
    {
      && more == (left != [])
      && (if more then Ahead() == left else Left() == [])
    }

    /** The Outside state; other characters than markup and skipped space start a text and are looked at again. */
    method StepOutside() returns (more: bool)
      requires HasWindow() && state.Outside?
      modifies this
      ensures Stepped(old(Now()), old(curChar), more)
      ensures Ready() && !Leaves(state) && Consumed(old(Left()), more)
    {
      hide Put, Predefined, ReferenceValue, Extended, Resolved, Left, Filled;
      if curChar == 60 {
        more := NextChar();
        if !more {
          return;
        }
        state := Enter;
        return;
      }
      if !keepAllText {
        if IsSpace(curChar) {
          more := NextChar();
          return;
        }
      }
      text := [];
      state := Text;
      more := StepText();
    }

    /** The AttrValue state. */
    method StepAttrValue() returns (more: bool)
      requires HasWindow() && state.AttrValue?
      modifies this
      ensures Stepped(old(Now()), old(curChar), more)
      ensures Ready() && (Leaves(state) ==> more && state.Inside?) && Consumed(old(Left()), more)
    {
      hide Put, Predefined, ReferenceValue, Extended, Resolved, FedText, Left, Filled;
      if curChar == attrValueDelimiter {
        values := values + [value];
        more := NextChar();
        if !more {
          return;
        }
        state := Inside;
        return;
      }
      if curChar == 38 {
        more := NextChar();
        if !more {
          return;
        }
        stateBeforeEntity := AttrValue;
        entity := [];
        state := Entity;
        return;
      }
      value := Put(value, curChar);
      more := NextChar();
    }

    /** The Entity state: character references and predefined entities go to the text or the value. */
    method StepEntity() returns (more: bool)
      requires HasWindow() && state.Entity? && Ready()
      modifies this
      ensures Ready()
      ensures Stepped(old(Now()), old(curChar), more)
      ensures if Leaves(state) then !more else Consumed(old(Left()), more)
    {
      hide Put, ReferenceValue, Predefined, Left;
      if curChar == 59 {
        if entity != [] && entity[0] == 35 {
          more := CharacterReference();
        } else {
          more := NamedEntity();
        }
        return;
      }
      entity := Put(entity, curChar);
      more := NextChar();
    }

    method CharacterReference() returns (more: bool)
      requires HasWindow() && curChar == 59 && state.Entity? && Ready()
      requires entity != [] && entity[0] == 35
      modifies this
      ensures Ready()
      ensures Now() == Resolved(old(Now()), !more)
      ensures if Leaves(state) then !more else Consumed(old(Left()), more)
    {
      hide Put, ReferenceValue, Left;
      var val := ReferenceValue(entity[1..]);
      if val == 0 || val >= 0x4000000 {
        state := Failed;
        return false;
      }
      ExtendTextValue(Put([], val));
      more := NextChar();
      if more {
        state := stateBeforeEntity;
      }
    }

    method NamedEntity() returns (more: bool)
      requires HasWindow() && curChar == 59 && state.Entity? && Ready()
      requires entity == [] || entity[0] != 35
      modifies this
      ensures Ready()
      ensures Now() == Resolved(old(Now()), !more)
      ensures if Leaves(state) then !more else Consumed(old(Left()), more)
    {
      hide Predefined, Left;
      if Predefined(entity) == [] {
        state := Elsewhere;
        return false;
      }
      ExtendTextValue(Predefined(entity));
      more := NextChar();
      if more {
        state, stateBeforeEntity := stateBeforeEntity, Unused;
      }
    }

    /** The Enter state: a name, an end tag or a processing instruction delivers the text collected so far. */
    method StepEnter()
      requires state.Enter?
      modifies this
      ensures unchanged(`buffer, `bufferIdx, `pieces) && Leaves(state)
      ensures forall last :: Now() == Fed(old(Now()), old(curChar), last, keepAllText)
    {
      if curChar == 63 || curChar == 47 || IsName(curChar) {
        PushText();
        state := Markup;
      } else if curChar == 33 {
        state := Markup;
      } else {
        state := Failed;
      }
    }

    /** The parser from its present state until it leaves these states or the input ends. */
    method InternalParse()
      requires Ready()
      modifies this
      ensures Now() == Run(old(Now()), old(Left()), keepAllText)
    {
      hide Fed, Left;
      if Leaves(state) {
        return;
      }
      var more := NextChar();
      while more
        invariant Ready() && !Leaves(state)
        invariant Run(Now(), if more then Ahead() else [], keepAllText) == Run(old(Now()), old(Left()), keepAllText)
        decreases |Left()|, more
      {
        RunStep(Now(), curChar, Left(), keepAllText);
        LeavesAnyway(Now(), curChar, keepAllText);
        match state {
          case Outside => more := StepOutside();
          case Text => more := StepText();
          case AttrValue => more := StepAttrValue();
          case Entity => more := StepEntity();
          case Enter => StepEnter();
        }
        if Leaves(state) {
          return;
        }
      }
      PushText();
    }
  }
}
