/**
 The JSON value tree, what its printer writes, and what its parser accepts.
 Parsing is stated on the remaining input, so an error's byte offset is the
 text length less the length of what remained.
 */
module Json {

  datatype Value =
    | Null
    | Bool(value: bool)
    | Number(literal: string)
    | Str(text: string)
    | Arr(items: seq<Value>)
    | Obj(fields: seq<Field>)

  datatype Field = Field(key: string, value: Value)

  datatype Problem =
    | UnexpectedEnd | UnexpectedCharacter | TrailingContent
    | ExpectedKey | ExpectedColon | DuplicateKey | UnterminatedObject | ExpectedCommaOrBrace
    | UnterminatedArray | ExpectedCommaOrBracket
    | UnterminatedString | UnterminatedEscape | InvalidEscape | ControlCharacter
    | UnpairedSurrogate | InvalidLowSurrogate | TruncatedUnicode | InvalidHexDigit
    | InvalidLiteral | InvalidNumber | InvalidFraction | InvalidExponent | ExponentTooLarge

  datatype Parsed<+T> = Ok(value: T, rest: string) | Err(problem: Problem, at: string)

  // ---- Characters ------------------------------------------------------------

  predicate IsSpace(c: char) {
    c == ' ' || c == '\t' || c == '\n' || c == '\r'
  }

  predicate IsDigit(c: char) {
    '0' <= c <= '9'
  }

  function Skip(s: string): (r: string)
    ensures |r| <= |s|
    ensures r != [] ==> !IsSpace(r[0])
  {
    if s != [] && IsSpace(s[0]) then Skip(s[1..]) else s
  }

  predicate At(s: string, c: char) {
    s != [] && s[0] == c
  }

  // ---- Strings -----------------------------------------------------------------

  function HexValue(c: char): (n: int)
    ensures -1 <= n < 16
  {
    if '0' <= c <= '9' then c as int - '0' as int
    else if 'a' <= c <= 'f' then c as int - 'a' as int + 10
    else if 'A' <= c <= 'F' then c as int - 'A' as int + 10
    else -1
  }

  /** Four hexadecimal digits; stops at the first that is not one. */
  function Hex4(s: string): (r: Parsed<int>)
    ensures r.Ok? ==> 0 <= r.value < 0x10000 && |r.rest| == |s| - 4
    ensures r.Err? ==> |r.at| <= |s|
  {
    if |s| < 4 then Err(TruncatedUnicode, s)
    else if HexValue(s[0]) < 0 then Err(InvalidHexDigit, s[1..])
    else if HexValue(s[1]) < 0 then Err(InvalidHexDigit, s[2..])
    else if HexValue(s[2]) < 0 then Err(InvalidHexDigit, s[3..])
    else if HexValue(s[3]) < 0 then Err(InvalidHexDigit, s[4..])
    else Ok(4096 * HexValue(s[0]) + 256 * HexValue(s[1]) + 16 * HexValue(s[2]) + HexValue(s[3]), s[4..])
  }

  function Byte(n: int): char
    requires 0 <= n < 256
  {
    n as char
  }

  /** The UTF-8 bytes of a code point, one character a byte. */
  function Utf8(codepoint: int): string
    requires 0 <= codepoint < 0x110000
  {
    if codepoint <= 0x7F then [Byte(codepoint)]
    else if codepoint <= 0x7FF then [Byte(0xC0 + codepoint / 64), Byte(0x80 + codepoint % 64)]
    else if codepoint <= 0xFFFF then
      [Byte(0xE0 + codepoint / 4096), Byte(0x80 + codepoint / 64 % 64), Byte(0x80 + codepoint % 64)]
    else
      [Byte(0xF0 + codepoint / 262144), Byte(0x80 + codepoint / 4096 % 64), Byte(0x80 + codepoint / 64 % 64),
       Byte(0x80 + codepoint % 64)]
  }

  /** The code point a first four-digit group stands for, with the second group of a surrogate pair. */
  function CodePoint(high: int, rest: string): (r: Parsed<int>)
    requires 0 <= high < 0x10000
    ensures r.Ok? ==> 0 <= r.value < 0x110000 && |r.rest| <= |rest|
    ensures r.Err? ==> |r.at| <= |rest|
  {
    if high < 0xD800 || high > 0xDBFF then Ok(high, rest)
    else if |rest| < 2 || rest[0] != '\\' || rest[1] != 'u' then Err(UnpairedSurrogate, rest)
    else
      match Hex4(rest[2..])
      case Err(p, at) => Err(p, at)
      case Ok(low, after) =>
        if low < 0xDC00 || low > 0xDFFF then Err(InvalidLowSurrogate, after)
        else Ok(0x10000 + (high - 0xD800) * 1024 + (low - 0xDC00), after)
  }

  /** What follows a backslash and a u. */
  function UnicodeEscape(s: string): (r: Parsed<string>)
    ensures r.Ok? ==> |r.rest| < |s|
    ensures r.Err? ==> |r.at| <= |s|
  {
    match Hex4(s)
    case Err(p, at) => Err(p, at)
    case Ok(high, rest) =>
      match CodePoint(high, rest)
      case Err(p, at) => Err(p, at)
      case Ok(codepoint, after) => Ok(Utf8(codepoint), after)
  }

  /** What follows a backslash. */
  function Escape(s: string): (r: Parsed<string>)
    ensures r.Ok? ==> |r.rest| < |s|
    ensures r.Err? ==> |r.at| <= |s|
  {
    if s == [] then Err(UnterminatedEscape, s)
    else
      match s[0]
      case '\"' => Ok("\"", s[1..])
      case '\\' => Ok("\\", s[1..])
      case '/' => Ok("/", s[1..])
      case 'b' => Ok([8 as char], s[1..])
      case 'f' => Ok([12 as char], s[1..])
      case 'n' => Ok("\n", s[1..])
      case 'r' => Ok("\r", s[1..])
      case 't' => Ok("\t", s[1..])
      case 'u' => UnicodeEscape(s[1..])
      case _ => Err(InvalidEscape, s[1..])
  }

  /** One character of a string's contents, or the escape that stands for some. */
  function StringPiece(s: string): (r: Parsed<string>)
    requires s != [] && s[0] != '\"'
    ensures r.Ok? ==> |r.rest| < |s|
    ensures r.Err? ==> |r.at| <= |s|
  {
    if s[0] == '\\' then Escape(s[1..])
    else if s[0] as int < 0x20 then Err(ControlCharacter, s[1..])
    else Ok([s[0]], s[1..])
  }

  /** The contents of a string after its opening quote, following those already read. */
  function StringFrom(s: string, read: string): (r: Parsed<string>)
    ensures r.Ok? ==> |r.rest| < |s|
    ensures r.Err? ==> |r.at| <= |s|
    decreases |s|
  {
    if s == [] then Err(UnterminatedString, s)
    else if s[0] == '\"' then Ok(read, s[1..])
    else
      match StringPiece(s)
      case Err(p, at) => Err(p, at)
      case Ok(piece, rest) => StringFrom(rest, read + piece)
  }

  // ---- Numbers -------------------------------------------------------------------

  function Digits(s: string): (r: string)
    ensures |r| <= |s|
    ensures s != [] && IsDigit(s[0]) ==> |r| < |s|
  {
    if s != [] && IsDigit(s[0]) then Digits(s[1..]) else s
  }

  const MAX_DECIMAL_EXPONENT := 300

  function DigitValue(c: char): nat {
    if IsDigit(c) then c as int - '0' as int else 0
  }

  function DecimalValue(digits: string): nat {
    if digits == [] then 0 else 10 * DecimalValue(digits[..|digits| - 1]) + DigitValue(digits[|digits| - 1])
  }

  function IntegerPart(s: string): (r: Parsed<()>)
    ensures r.Ok? ==> |r.rest| < |s|
    ensures r.Err? ==> |r.at| <= |s|
  {
    var t := if At(s, '-') then s[1..] else s;
    if t == [] || !IsDigit(t[0]) then Err(InvalidNumber, t)
    else if t[0] == '0' then Ok((), t[1..])
    else Ok((), Digits(t))
  }

  function FractionPart(s: string): (r: Parsed<()>)
    ensures r.Ok? ==> |r.rest| <= |s|
    ensures r.Err? ==> |r.at| <= |s|
  {
    if !At(s, '.') then Ok((), s)
    else
      var t := s[1..];
      if t == [] || !IsDigit(t[0]) then Err(InvalidFraction, t) else Ok((), Digits(t))
  }

  /** The digits of an exponent, whose value is bounded. */
  function ExponentDigits(u: string): (r: Parsed<()>)
    ensures r.Ok? ==> |r.rest| < |u|
    ensures r.Err? ==> |r.at| <= |u|
  {
    if u == [] || !IsDigit(u[0]) then Err(InvalidExponent, u)
    else
      var rest := Digits(u);
      if DecimalValue(u[..|u| - |rest|]) > MAX_DECIMAL_EXPONENT then Err(ExponentTooLarge, rest) else Ok((), rest)
  }

  function ExponentPart(s: string): (r: Parsed<()>)
    ensures r.Ok? ==> |r.rest| <= |s|
    ensures r.Err? ==> |r.at| <= |s|
  {
    if !At(s, 'e') && !At(s, 'E') then Ok((), s)
    else
      var t := s[1..];
      ExponentDigits(if At(t, '+') || At(t, '-') then t[1..] else t)
  }

  /** Where a number literal ends. */
  function NumberEnd(s: string): (r: Parsed<()>)
    ensures r.Ok? ==> |r.rest| < |s|
    ensures r.Err? ==> |r.at| <= |s|
  {
    match IntegerPart(s)
    case Err(p, at) => Err(p, at)
    case Ok(_, s1) =>
      match FractionPart(s1)
      case Err(p, at) => Err(p, at)
      case Ok(_, s2) => ExponentPart(s2)
  }

  /** A number literal, kept as its exact text. */
  function NumberAt(s: string): (r: Parsed<Value>)
    ensures r.Ok? ==> |r.rest| < |s|
    ensures r.Err? ==> |r.at| <= |s|
  {
    match NumberEnd(s)
    case Err(p, at) => Err(p, at)
    case Ok(_, rest) => Ok(Number(s[..|s| - |rest|]), rest)
  }

  // ---- Values ----------------------------------------------------------------------

  function BoolAt(s: string): (r: Parsed<Value>)
    ensures r.Ok? ==> |r.rest| < |s|
    ensures r.Err? ==> |r.at| <= |s|
  {
    if "true" <= s then Ok(Bool(true), s[4..])
    else if "false" <= s then Ok(Bool(false), s[5..])
    else Err(InvalidLiteral, s)
  }

  function NullAt(s: string): (r: Parsed<Value>)
    ensures r.Ok? ==> |r.rest| < |s|
    ensures r.Err? ==> |r.at| <= |s|
  {
    if "null" <= s then Ok(Null, s[4..]) else Err(InvalidLiteral, s)
  }

  function StringAt(s: string): (r: Parsed<Value>)
    requires At(s, '\"')
    ensures r.Ok? ==> |r.rest| < |s|
    ensures r.Err? ==> |r.at| <= |s|
  {
    match StringFrom(s[1..], [])
    case Err(p, at) => Err(p, at)
    case Ok(text, rest) => Ok(Str(text), rest)
  }

  function ValueAt(input: string): (r: Parsed<Value>)
    ensures r.Ok? ==> |r.rest| < |input|
    ensures r.Err? ==> |r.at| <= |input|
    decreases |input|, 2
  {
    var s := Skip(input);
    if s == [] then Err(UnexpectedEnd, s)
    else if s[0] == '{' then
      var t := Skip(s[1..]);
      if At(t, '}') then Ok(Obj([]), t[1..]) else MemberAt(t, [])
    else if s[0] == '[' then
      var t := Skip(s[1..]);
      if At(t, ']') then Ok(Arr([]), t[1..]) else ElementAt(t, [])
    else if s[0] == '\"' then StringAt(s)
    else if s[0] == 't' || s[0] == 'f' then BoolAt(s)
    else if s[0] == 'n' then NullAt(s)
    else if s[0] == '-' || IsDigit(s[0]) then NumberAt(s)
    else Err(UnexpectedCharacter, s)
  }

  predicate HasKey(fields: seq<Field>, key: string) {
    exists i :: 0 <= i < |fields| && fields[i].key == key
  }

  /** A key, a colon and a value, after the fields already read. */
  function MemberAt(input: string, fields: seq<Field>): (r: Parsed<Value>)
    ensures r.Ok? ==> |r.rest| < |input|
    ensures r.Err? ==> |r.at| <= |input|
    decreases |input|, 3
  {
    var s := Skip(input);
    if !At(s, '\"') then Err(ExpectedKey, s)
    else
      match StringFrom(s[1..], [])
      case Err(p, at) => Err(p, at)
      case Ok(key, afterKey) =>
        var t := Skip(afterKey);
        if !At(t, ':') then Err(ExpectedColon, t)
        else
          match ValueAt(t[1..])
          case Err(p, at) => Err(p, at)
          case Ok(value, rest) =>
            if HasKey(fields, key) then Err(DuplicateKey, rest)
            else AfterMember(rest, fields + [Field(key, value)])
  }

  function AfterMember(input: string, fields: seq<Field>): (r: Parsed<Value>)
    ensures r.Ok? ==> |r.rest| < |input|
    ensures r.Err? ==> |r.at| <= |input|
    decreases |input|, 0
  {
    var s := Skip(input);
    if s == [] then Err(UnterminatedObject, s)
    else if s[0] == ',' then MemberAt(s[1..], fields)
    else if s[0] == '}' then Ok(Obj(fields), s[1..])
    else Err(ExpectedCommaOrBrace, s)
  }

  /** A value, after the items already read. */
  function ElementAt(input: string, items: seq<Value>): (r: Parsed<Value>)
    ensures r.Ok? ==> |r.rest| < |input|
    ensures r.Err? ==> |r.at| <= |input|
    decreases |input|, 3
  {
    match ValueAt(input)
    case Err(p, at) => Err(p, at)
    case Ok(value, rest) => AfterElement(rest, items + [value])
  }

  function AfterElement(input: string, items: seq<Value>): (r: Parsed<Value>)
    ensures r.Ok? ==> |r.rest| < |input|
    ensures r.Err? ==> |r.at| <= |input|
    decreases |input|, 0
  {
    var s := Skip(input);
    if s == [] then Err(UnterminatedArray, s)
    else if s[0] == ',' then ElementAt(s[1..], items)
    else if s[0] == ']' then Ok(Arr(items), s[1..])
    else Err(ExpectedCommaOrBracket, s)
  }

  /** The whole document: one value and nothing after it. */
  function Document(text: string): (r: Parsed<Value>)
    ensures r.Err? ==> |r.at| <= |text|
  {
    match ValueAt(Skip(text))
    case Err(p, at) => Err(p, at)
    case Ok(value, rest) =>
      var end := Skip(rest);
      if end == [] then Ok(value, end) else Err(TrailingContent, end)
  }

  // ---- The printer ---------------------------------------------------------------

  function HexDigit(n: int): char
    requires 0 <= n < 16
  {
    if n < 10 then ('0' as int + n) as char else ('a' as int + n - 10) as char
  }

  function EscapedChar(c: char): string {
    match c
    case '\"' => "\\\""
    case '\\' => "\\\\"
    case '\n' => "\\n"
    case '\r' => "\\r"
    case '\t' => "\\t"
    case _ =>
      if c as int == 8 then "\\b"
      else if c as int == 12 then "\\f"
      else if c as int < 0x20 then "\\u00" + [HexDigit(c as int / 16), HexDigit(c as int % 16)]
      else [c]
  }

  function Escaped(s: string): string {
    if s == [] then [] else EscapedChar(s[0]) + Escaped(s[1..])
  }

  function Quoted(s: string): string {
    "\"" + Escaped(s) + "\""
  }

  function Dump(v: Value): string
    decreases v, 1
  {
    match v
    case Null => "null"
    case Bool(b) => if b then "true" else "false"
    case Number(literal) => if literal == "" then "0" else literal
    case Str(text) => Quoted(text)
    case Arr(items) => if items == [] then "[]" else "[" + (Dump(items[0]) + ItemsTail(items[1..]))
    case Obj(fields) => if fields == [] then "{}" else "{" + (DumpField(fields[0]) + FieldsTail(fields[1..]))
  }

  /** What follows an item: the items after it, each behind a comma, and the bracket. */
  function ItemsTail(items: seq<Value>): string
    decreases items, 0
  {
    if items == [] then "]" else "," + (Dump(items[0]) + ItemsTail(items[1..]))
  }

  function DumpField(f: Field): string
    decreases f, 0
  {
    Quoted(f.key) + (":" + Dump(f.value))
  }

  function FieldsTail(fields: seq<Field>): string
    decreases fields, 0
  {
    if fields == [] then "}" else "," + (DumpField(fields[0]) + FieldsTail(fields[1..]))
  }
}
