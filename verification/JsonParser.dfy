/** The parser that moves a position through the text, and the printer that appends to a buffer. */
module JsonParser {
  import opened Sequences
  import opened Json

  /** A parsing method's answer: a value, or a problem and the byte it was met at. */
  datatype Outcome<+T> = Success(value: T) | Failure(problem: Problem, byte: nat)

  lemma SkipStep(s: string, i: nat)
    requires i < |s|
    ensures IsSpace(s[i]) ==> Skip(s[i..]) == Skip(s[i + 1..])
    ensures !IsSpace(s[i]) ==> Skip(s[i..]) == s[i..]
  {
  }

  lemma DigitsStep(s: string, i: nat)
    requires i < |s|
    ensures IsDigit(s[i]) ==> Digits(s[i..]) == Digits(s[i + 1..])
    ensures !IsDigit(s[i]) ==> Digits(s[i..]) == s[i..]
  {
  }

  class Parser {
    const text: string
    var position: nat

    constructor (text: string)
      ensures this.text == text && Valid() && Rest() == text
    {
      this.text := text;
      position := 0;
    }

    ghost predicate Valid()
      reads this
    {
      position <= |text|
    }

    ghost function Rest(): string
      requires Valid()
      reads this
    {
      text[position..]
    }

    /** The answer and the position are what parsing the remaining text comes to. */
    ghost predicate Reached<T(!new)>(p: Parsed<T>, r: Outcome<T>)
      reads this
    {
      Valid() &&
      match p
      case Ok(value, rest) => r == Success(value) && Rest() == rest
      case Err(problem, at) => |at| <= |text| && r == Failure(problem, |text| - |at|)
    }

    predicate AtEnd()
      reads this
    {
      position >= |text|
    }

    predicate Looking(c: char)
      requires Valid()
      reads this
      ensures Looking(c) == At(Rest(), c)
    {
      !AtEnd() && text[position] == c
    }

    predicate LookingAtDigit()
      requires Valid()
      reads this
      ensures LookingAtDigit() == (Rest() != [] && IsDigit(Rest()[0]))
    {
      !AtEnd() && IsDigit(text[position])
    }

    method Advance(k: nat)
      requires Valid() && position + k <= |text|
      modifies this`position
      ensures Valid() && position == old(position) + k && Rest() == old(Rest())[k..]
    {
      Drop(text, position, k);
      position := position + k;
    }

    method SkipWhitespace()
      requires Valid()
      modifies this`position
      ensures Valid() && Rest() == Skip(old(Rest())) && position >= old(position)
    {
      while !AtEnd()
        invariant Valid() && position >= old(position)
        invariant Skip(Rest()) == Skip(old(Rest()))
        decreases |text| - position
      {
        SkipStep(text, position);
        if !IsSpace(text[position]) {
          return;
        }
        position := position + 1;
      }
    }

    method SkipDigits()
      requires Valid()
      modifies this`position
      ensures Valid() && Rest() == Digits(old(Rest())) && position >= old(position)
      ensures old(LookingAtDigit()) ==> position > old(position)
    {
      while LookingAtDigit()
        invariant Valid() && position >= old(position)
        invariant Digits(Rest()) == Digits(old(Rest()))
        invariant old(LookingAtDigit()) ==> position > old(position) || LookingAtDigit()
        decreases |text| - position
      {
        DigitsStep(text, position);
        position := position + 1;
      }
    }

    method Fail<T>(problem: Problem) returns (r: Outcome<T>)
      ensures r == Failure(problem, position)
    {
      r := Failure(problem, position);
    }

    // ---- Strings -------------------------------------------------------------------

    method ParseHex4() returns (r: Outcome<int>)
      requires Valid()
      modifies this`position
      ensures Reached(Hex4(old(Rest())), r)
      ensures position >= old(position)
    {
      if position + 4 > |text| {
        r := Fail(TruncatedUnicode);
        return;
      }
      ghost var s := Rest();
      var value, index := 0, 0;
      while index < 4
        invariant 0 <= index <= 4 && position == old(position) + index && position <= |text|
        invariant forall k :: 0 <= k < index ==> HexValue(s[k]) >= 0
        invariant index >= 1 ==> HexValue(s[0]) >= 0
        invariant index >= 2 ==> HexValue(s[1]) >= 0
        invariant index >= 3 ==> HexValue(s[2]) >= 0
        invariant index >= 4 ==> HexValue(s[3]) >= 0
        invariant index == 0 ==> value == 0
        invariant index == 1 ==> value == HexValue(s[0])
        invariant index == 2 ==> value == 16 * HexValue(s[0]) + HexValue(s[1])
        invariant index == 3 ==> value == 256 * HexValue(s[0]) + 16 * HexValue(s[1]) + HexValue(s[2])
        invariant index == 4 ==> value == 4096 * HexValue(s[0]) + 256 * HexValue(s[1]) + 16 * HexValue(s[2]) + HexValue(s[3])
      {
        var digit := text[position];
        assert digit == s[index];
        position := position + 1;
        if HexValue(digit) < 0 {
          r := Fail(InvalidHexDigit);
          return;
        }
        value := 16 * value + HexValue(digit);
        index := index + 1;
      }
      Drop(text, old(position), 4);
      r := Success(value);
    }

    method ParseCodePoint(high: int) returns (r: Outcome<int>)
      requires Valid() && 0 <= high < 0x10000
      modifies this`position
      ensures Reached(CodePoint(high, old(Rest())), r)
      ensures position >= old(position)
    {
      if high < 0xD800 || high > 0xDBFF {
        r := Success(high);
        return;
      }
      if position + 1 >= |text| || text[position] != '\\' || text[position + 1] != 'u' {
        r := Fail(UnpairedSurrogate);
        return;
      }
      Advance(2);
      r := ParseHex4();
      if r.Success? {
        if r.value < 0xDC00 || r.value > 0xDFFF {
          r := Fail(InvalidLowSurrogate);
        } else {
          r := Success(0x10000 + (high - 0xD800) * 1024 + (r.value - 0xDC00));
        }
      }
    }

    method ParseUnicodeEscape() returns (r: Outcome<string>)
      requires Valid()
      modifies this`position
      ensures Reached(UnicodeEscape(old(Rest())), r)
      ensures position >= old(position)
    {
      var high := ParseHex4();
      if high.Failure? {
        r := Failure(high.problem, high.byte);
        return;
      }
      var codepoint := ParseCodePoint(high.value);
      if codepoint.Failure? {
        r := Failure(codepoint.problem, codepoint.byte);
        return;
      }
      r := Success(Utf8(codepoint.value));
    }

    /** What follows a backslash. */
    method ParseEscape() returns (r: Outcome<string>)
      requires Valid()
      modifies this`position
      ensures Reached(Escape(old(Rest())), r)
      ensures position >= old(position)
    {
      if AtEnd() {
        r := Fail(UnterminatedEscape);
        return;
      }
      var escape := text[position];
      Advance(1);
      match escape
      case '\"' => r := Success("\"");
      case '\\' => r := Success("\\");
      case '/' => r := Success("/");
      case 'b' => r := Success([8 as char]);
      case 'f' => r := Success([12 as char]);
      case 'n' => r := Success("\n");
      case 'r' => r := Success("\r");
      case 't' => r := Success("\t");
      case 'u' => r := ParseUnicodeEscape();
      case _ => r := Fail(InvalidEscape);
    }

    method ParseString() returns (r: Outcome<string>)
      requires Valid() && Looking('\"')
      modifies this`position
      ensures Reached(StringFrom(old(Rest())[1..], []), r)
      ensures position > old(position)
    {
      Advance(1);
      ghost var whole := StringFrom(Rest(), []);
      var result := "";
      while true
        invariant Valid() && position > old(position)
        invariant StringFrom(Rest(), result) == whole
        decreases |text| - position
      {
        if AtEnd() {
          r := Fail(UnterminatedString);
          return;
        }
        var character := text[position];
        Advance(1);
        if character == '\"' {
          break;
        }
        if character == '\\' {
          var piece := ParseEscape();
          if piece.Failure? {
            r := Failure(piece.problem, piece.byte);
            return;
          }
          result := result + piece.value;
          continue;
        }
        if character as int < 0x20 {
          r := Fail(ControlCharacter);
          return;
        }
        result := result + [character];
      }
      r := Success(result);
    }

    // ---- Literals ------------------------------------------------------------------

    method ParseBool() returns (r: Outcome<Value>)
      requires Valid()
      modifies this`position
      ensures Reached(BoolAt(old(Rest())), r)
      ensures position >= old(position)
    {
      if "true" <= text[position..] {
        Advance(4);
        r := Success(Bool(true));
      } else if "false" <= text[position..] {
        Advance(5);
        r := Success(Bool(false));
      } else {
        r := Fail(InvalidLiteral);
      }
    }

    method ParseNull() returns (r: Outcome<Value>)
      requires Valid()
      modifies this`position
      ensures Reached(NullAt(old(Rest())), r)
      ensures position >= old(position)
    {
      if "null" <= text[position..] {
        Advance(4);
        r := Success(Null);
      } else {
        r := Fail(InvalidLiteral);
      }
    }

    method ParseInteger() returns (r: Outcome<()>)
      requires Valid()
      modifies this`position
      ensures Reached(IntegerPart(old(Rest())), r)
      ensures position >= old(position)
    {
      if Looking('-') {
        Advance(1);
      }
      if !LookingAtDigit() {
        r := Fail(InvalidNumber);
        return;
      }
      if text[position] == '0' {
        Advance(1);
      } else {
        SkipDigits();
      }
      r := Success(());
    }

    method ParseFraction() returns (r: Outcome<()>)
      requires Valid()
      modifies this`position
      ensures Reached(FractionPart(old(Rest())), r)
      ensures position >= old(position)
    {
      if Looking('.') {
        Advance(1);
        if !LookingAtDigit() {
          r := Fail(InvalidFraction);
          return;
        }
        SkipDigits();
      }
      r := Success(());
    }

    method ParseExponentDigits() returns (r: Outcome<()>)
      requires Valid()
      modifies this`position
      ensures Reached(ExponentDigits(old(Rest())), r)
      ensures position >= old(position)
    {
      var start := position;
      ghost var u := Rest();
      if !LookingAtDigit() {
        r := Fail(InvalidExponent);
        return;
      }
      SkipDigits();
      assert text[start..position] == u[..|u| - |Digits(u)|];
      if DecimalValue(text[start..position]) > MAX_DECIMAL_EXPONENT {
        r := Fail(ExponentTooLarge);
        return;
      }
      r := Success(());
    }

    method ParseExponent() returns (r: Outcome<()>)
      requires Valid()
      modifies this`position
      ensures Reached(ExponentPart(old(Rest())), r)
      ensures position >= old(position)
    {
      if !Looking('e') && !Looking('E') {
        r := Success(());
        return;
      }
      Advance(1);
      if Looking('+') || Looking('-') {
        Advance(1);
      }
      r := ParseExponentDigits();
    }

    method PassNumber() returns (r: Outcome<()>)
      requires Valid()
      modifies this`position
      ensures Reached(NumberEnd(old(Rest())), r)
      ensures position >= old(position)
    {
      r := ParseInteger();
      if r.Failure? {
        return;
      }
      r := ParseFraction();
      if r.Failure? {
        return;
      }
      r := ParseExponent();
    }

    method ParseNumber() returns (r: Outcome<Value>)
      requires Valid()
      modifies this`position
      ensures Reached(NumberAt(old(Rest())), r)
      ensures position >= old(position)
    {
      var start := position;
      ghost var s := Rest();
      var part := PassNumber();
      if part.Failure? {
        r := Failure(part.problem, part.byte);
        return;
      }
      assert text[start..position] == s[..|s| - |Rest()|];
      r := Success(Number(text[start..position]));
    }

    // ---- Values ----------------------------------------------------------------------

    method ParseValue() returns (r: Outcome<Value>)
      requires Valid()
      modifies this`position
      ensures Reached(ValueAt(old(Rest())), r)
      ensures position >= old(position)
      decreases |text| - position, 1
    {
      SkipWhitespace();
      if AtEnd() {
        r := Fail(UnexpectedEnd);
        return;
      }
      var lead := text[position];
      if lead == '{' {
        r := ParseObject();
      } else if lead == '[' {
        r := ParseArray();
      } else if lead == '\"' {
        var s := ParseString();
        r := if s.Success? then Success(Str(s.value)) else Failure(s.problem, s.byte);
      } else if lead == 't' || lead == 'f' {
        r := ParseBool();
      } else if lead == 'n' {
        r := ParseNull();
      } else if lead == '-' || IsDigit(lead) {
        r := ParseNumber();
      } else {
        r := Fail(UnexpectedCharacter);
      }
    }

    method ContainsKey(fields: seq<Field>, key: string) returns (found: bool)
      ensures found == HasKey(fields, key)
    {
      var i := 0;
      while i < |fields|
        invariant 0 <= i <= |fields|
        invariant forall k :: 0 <= k < i ==> fields[k].key != key
      {
        if fields[i].key == key {
          return true;
        }
        i := i + 1;
      }
      return false;
    }

    /** A key, a colon and a value. */
    method ParseMember(fields: seq<Field>) returns (r: Outcome<Field>)
      requires Valid()
      modifies this`position
      ensures Valid() && position >= old(position)
      ensures r.Success? ==> position > old(position)
      ensures match r
              case Success(field) => MemberAt(old(Rest()), fields) == AfterMember(Rest(), fields + [field])
              case Failure(problem, byte) =>
                var whole := MemberAt(old(Rest()), fields);
                whole.Err? && whole.problem == problem && byte == |text| - |whole.at|
      decreases |text| - position, 2
    {
      SkipWhitespace();
      if !Looking('\"') {
        r := Fail(ExpectedKey);
        return;
      }
      var key := ParseString();
      if key.Failure? {
        r := Failure(key.problem, key.byte);
        return;
      }
      SkipWhitespace();
      if !Looking(':') {
        r := Fail(ExpectedColon);
        return;
      }
      Advance(1);
      var value := ParseValue();
      if value.Failure? {
        r := Failure(value.problem, value.byte);
        return;
      }
      var repeated := ContainsKey(fields, key.value);
      if repeated {
        r := Fail(DuplicateKey);
        return;
      }
      r := Success(Field(key.value, value.value));
    }

    method ParseObject() returns (r: Outcome<Value>)
      requires Valid() && Looking('{')
      modifies this`position
      ensures Reached(ValueAt(old(Rest())), r)
      ensures position >= old(position)
      decreases |text| - position, 0
    {
      Advance(1);
      SkipWhitespace();
      if Looking('}') {
        Advance(1);
        r := Success(Obj([]));
      } else {
        r := ParseMembers();
      }
    }

    /** The object's members up to its closing brace. */
    method ParseMembers() returns (r: Outcome<Value>)
      requires Valid()
      modifies this`position
      ensures Reached(MemberAt(old(Rest()), []), r)
      ensures position >= old(position)
      decreases |text| - position, 3
    {
      var output: seq<Field> := [];
      while true
        invariant Valid() && position >= old(position)
        invariant MemberAt(Rest(), output) == MemberAt(old(Rest()), [])
        decreases |text| - position
      {
        var field := ParseMember(output);
        if field.Failure? {
          r := Failure(field.problem, field.byte);
          return;
        }
        output := output + [field.value];
        SkipWhitespace();
        if AtEnd() {
          r := Fail(UnterminatedObject);
          return;
        }
        if Looking(',') {
          Advance(1);
          continue;
        }
        if Looking('}') {
          Advance(1);
          r := Success(Obj(output));
          return;
        }
        r := Fail(ExpectedCommaOrBrace);
        return;
      }
    }

    method ParseArray() returns (r: Outcome<Value>)
      requires Valid() && Looking('[')
      modifies this`position
      ensures Reached(ValueAt(old(Rest())), r)
      ensures position >= old(position)
      decreases |text| - position, 0
    {
      Advance(1);
      SkipWhitespace();
      if Looking(']') {
        Advance(1);
        r := Success(Arr([]));
      } else {
        r := ParseElements();
      }
    }

    /** The array's elements up to its closing bracket. */
    method ParseElements() returns (r: Outcome<Value>)
      requires Valid()
      modifies this`position
      ensures Reached(ElementAt(old(Rest()), []), r)
      ensures position >= old(position)
      decreases |text| - position, 3
    {
      var output: seq<Value> := [];
      while true
        invariant Valid() && position >= old(position)
        invariant ElementAt(Rest(), output) == ElementAt(old(Rest()), [])
        decreases |text| - position
      {
        var value := ParseValue();
        if value.Failure? {
          r := Failure(value.problem, value.byte);
          return;
        }
        output := output + [value.value];
        SkipWhitespace();
        if AtEnd() {
          r := Fail(UnterminatedArray);
          return;
        }
        if Looking(',') {
          Advance(1);
          continue;
        }
        if Looking(']') {
          Advance(1);
          r := Success(Arr(output));
          return;
        }
        r := Fail(ExpectedCommaOrBracket);
        return;
      }
    }

    method ParseDocument() returns (r: Outcome<Value>)
      requires Valid() && position == 0
      modifies this`position
      ensures Reached(Document(text), r)
    {
      assert Rest() == text;
      SkipWhitespace();
      r := ParseValue();
      if r.Failure? {
        return;
      }
      SkipWhitespace();
      if position != |text| {
        r := Fail(TrailingContent);
      }
    }
  }

  // ---- The printer ------------------------------------------------------------------

  method EscapeJsonString(input: string) returns (output: string)
    ensures output == Escaped(input)
  {
    output := "";
    var i := 0;
    while i < |input|
      invariant 0 <= i <= |input|
      invariant output + Escaped(input[i..]) == Escaped(input)
    {
      Associate(output, EscapedChar(input[i]), Escaped(input[i + 1..]));
      Drop(input, i, 1);
      output := output + EscapedChar(input[i]);
      i := i + 1;
    }
    assert output + [] == output;
  }

  /** What printing the items from one on still has to write. */
  ghost function ItemsPending(items: seq<Value>, i: nat): string
    requires i <= |items|
  {
    if 0 == i < |items| then Dump(items[0]) + ItemsTail(items[1..]) else ItemsTail(items[i..])
  }

  ghost function FieldsPending(fields: seq<Field>, i: nat): string
    requires i <= |fields|
  {
    if 0 == i < |fields| then DumpField(fields[0]) + FieldsTail(fields[1..]) else FieldsTail(fields[i..])
  }

  lemma ItemsPendingStep(items: seq<Value>, i: nat)
    requires i < |items|
    ensures ItemsPending(items, i) == ((if i > 0 then "," else "") + Dump(items[i])) + ItemsPending(items, i + 1)
  {
  }

  lemma FieldsPendingStep(fields: seq<Field>, i: nat)
    requires i < |fields|
    ensures FieldsPending(fields, i) == ((if i > 0 then "," else "") + DumpField(fields[i])) + FieldsPending(fields, i + 1)
  {
    if i == 0 {
      assert "" + DumpField(fields[0]) == DumpField(fields[0]);
    } else {
      Associate(",", DumpField(fields[i]), FieldsTail(fields[i + 1..]));
      assert fields[i..][1..] == fields[i + 1..];
    }
  }

  method DumpTo(v: Value, output: string) returns (out: string)
    ensures out == output + Dump(v)
    decreases v
  {
    match v
    case Null =>
      out := output + "null";
    case Bool(b) =>
      out := output + if b then "true" else "false";
    case Number(literal) =>
      out := output + if literal == "" then "0" else literal;
    case Str(text) =>
      var escaped := EscapeJsonString(text);
      out := output + "\"" + escaped + "\"";
      assert out == output + Quoted(text);
    case Arr(items) =>
      out := output + "[";
      var i := 0;
      Associate(output, "[", ItemsPending(items, 0));
      assert Dump(v) == "[" + ItemsPending(items, 0);
      while i < |items|
        invariant 0 <= i <= |items|
        invariant out + ItemsPending(items, i) == output + Dump(v)
      {
        ItemsPendingStep(items, i);
        var comma := if i > 0 then "," else "";
        Associate(out, comma + Dump(items[i]), ItemsPending(items, i + 1));
        Associate(out, comma, Dump(items[i]));
        out := out + comma;
        out := DumpTo(items[i], out);
        i := i + 1;
      }
      out := out + "]";
    case Obj(fields) =>
      out := output + "{";
      var i := 0;
      Associate(output, "{", FieldsPending(fields, 0));
      assert Dump(v) == "{" + FieldsPending(fields, 0);
      while i < |fields|
        invariant 0 <= i <= |fields|
        invariant out + FieldsPending(fields, i) == output + Dump(v)
      {
        FieldsPendingStep(fields, i);
        var comma := if i > 0 then "," else "";
        Associate(out, comma + DumpField(fields[i]), FieldsPending(fields, i + 1));
        Associate(out, comma, DumpField(fields[i]));
        out := DumpFieldTo(fields[i], out + comma);
        i := i + 1;
      }
      out := out + "}";
  }

  method DumpFieldTo(f: Field, output: string) returns (out: string)
    ensures out == output + DumpField(f)
    decreases f
  {
    var key := EscapeJsonString(f.key);
    out := output + "\"" + key + "\":";
    assert out == output + (Quoted(f.key) + ":");
    Associate(output, Quoted(f.key) + ":", Dump(f.value));
    Associate(Quoted(f.key), ":", Dump(f.value));
    out := DumpTo(f.value, out);
  }
}
