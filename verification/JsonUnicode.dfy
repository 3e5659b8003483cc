/**
 What the escapes of a JSON string stand for. The bytes that the parser writes
 for a code point are read back by a UTF-8 decoder that knows nothing of it
 (section 3 of RFC 3629), and the escapes of any text give that text.
 */
module JsonUnicode {
  import opened Options
  import opened Sequences
  import opened Json

  // ---- A decoder -------------------------------------------------------------------

  /** A continuation byte carries six bits. */
  predicate IsContinuation(c: char) {
    0x80 <= c as int < 0xC0
  }

  /** How many bytes a sequence has, by its first. */
  function SequenceLength(lead: char): Option<nat> {
    var b := lead as int;
    if b < 0x80 then Some(1)
    else if 0xC0 <= b < 0xE0 then Some(2)
    else if 0xE0 <= b < 0xF0 then Some(3)
    else if 0xF0 <= b < 0xF8 then Some(4)
    else None
  }

  /** The bits of the first byte that belong to the code point. */
  function LeadBits(lead: char, length: nat): int {
    var b := lead as int;
    if length == 1 then b else if length == 2 then b - 0xC0 else if length == 3 then b - 0xE0 else b - 0xF0
  }

  /** The least code point that needs that many bytes. */
  function LeastOf(length: nat): int {
    if length == 1 then 0 else if length == 2 then 0x80 else if length == 3 then 0x800 else 0x10000
  }

  /** The number that a lead byte and its continuation bytes stand for. */
  function SequenceValue(s: string): int
    requires 1 <= |s| <= 4
  {
    if |s| == 1 then LeadBits(s[0], 1)
    else if |s| == 2 then LeadBits(s[0], 2) * 64 + (s[1] as int - 0x80)
    else if |s| == 3 then (LeadBits(s[0], 3) * 64 + (s[1] as int - 0x80)) * 64 + (s[2] as int - 0x80)
    else ((LeadBits(s[0], 4) * 64 + (s[1] as int - 0x80)) * 64 + (s[2] as int - 0x80)) * 64 + (s[3] as int - 0x80)
  }

  /** One byte sequence: its lead, its continuation bytes, and no shorter way to write the same. */
  predicate IsSequence(s: string) {
    && 1 <= |s| <= 4
    && SequenceLength(s[0]) == Some(|s|)
    && (forall i :: 1 <= i < |s| ==> IsContinuation(s[i]))
    && LeastOf(|s|) <= SequenceValue(s) < 0x110000
  }

  /** The code points of a text, one sequence after the other; no value when it is not made of sequences. */
  function Decode(s: string): Option<seq<int>> {
    if s == [] then Some([])
    else
      match SequenceLength(s[0])
      case None => None
      case Some(n) =>
        if n == 0 || n > |s| || !IsSequence(s[..n]) then None
        else
          match Decode(s[n..])
          case None => None
          case Some(rest) => Some([SequenceValue(s[..n])] + rest)
  }

  /** A code point that is a character: no surrogate. */
  predicate IsScalar(c: int) {
    0 <= c < 0xD800 || 0xE000 <= c < 0x110000
  }

  // ---- What the parser writes --------------------------------------------------------

  lemma OneByte(c: int)
    requires 0 <= c < 0x80
    ensures IsSequence(Utf8(c)) && SequenceValue(Utf8(c)) == c
  {
  }

  lemma TwoBytes(c: int)
    requires 0x80 <= c < 0x800
    ensures IsSequence(Utf8(c)) && SequenceValue(Utf8(c)) == c
  {
  }

  lemma ThreeBytes(c: int)
    requires 0x800 <= c < 0x10000
    ensures IsSequence(Utf8(c)) && SequenceValue(Utf8(c)) == c
  {
    var high, middle, low := c / 4096, c / 64 % 64, c % 64;
    assert c / 64 == 64 * high + middle;
    var s := Utf8(c);
    assert |s| == 3 && s[0] as int == 0xE0 + high && s[1] as int == 0x80 + middle && s[2] as int == 0x80 + low;
  }

  lemma FourBytes(c: int)
    requires 0x10000 <= c < 0x110000
    ensures IsSequence(Utf8(c)) && SequenceValue(Utf8(c)) == c
  {
    var lead, high, middle, low := c / 262144, c / 4096 % 64, c / 64 % 64, c % 64;
    assert c / 4096 == 64 * lead + high;
    assert c / 64 == 64 * (c / 4096) + middle;
    var s := Utf8(c);
    assert |s| == 4 && s[0] as int == 0xF0 + lead && s[1] as int == 0x80 + high && s[2] as int == 0x80 + middle &&
           s[3] as int == 0x80 + low;
  }

  /** The bytes of a code point are one sequence, which stands for it. */
  lemma Utf8Back(c: int)
    requires 0 <= c < 0x110000
    ensures IsSequence(Utf8(c)) && SequenceValue(Utf8(c)) == c
  {
    if c < 0x80 {
      OneByte(c);
    } else if c < 0x800 {
      TwoBytes(c);
    } else if c < 0x10000 {
      ThreeBytes(c);
    } else {
      FourBytes(c);
    }
  }

  lemma DecodeFirst(s: string, rest: string)
    requires IsSequence(s)
    ensures Decode(s + rest) == match Decode(rest)
                                case None => None
                                case Some(cs) => Some([SequenceValue(s)] + cs)
  {
    assert (s + rest)[..|s|] == s && (s + rest)[|s|..] == rest;
  }

  /** A code point's bytes before any text decode to it and what the text decodes to. */
  lemma Utf8First(c: int, rest: string)
    requires 0 <= c < 0x110000
    ensures Decode(Utf8(c) + rest) == match Decode(rest)
                                      case None => None
                                      case Some(cs) => Some([c] + cs)
  {
    Utf8Back(c);
    DecodeFirst(Utf8(c), rest);
  }

  // ---- The pieces of a string --------------------------------------------------------

  const HEX_DIGITS := "0123456789abcdef"
  const UPPER_HEX_DIGITS := "0123456789ABCDEF"

  type Nibble = n: int | 0 <= n < 16

  /** A hexadecimal digit in either case. */
  datatype Hex = Hex(value: Nibble, upper: bool)
  {
    function Text(): char {
      if upper then UPPER_HEX_DIGITS[value] else HEX_DIGITS[value]
    }
  }

  /** Four digits that together write a 16-bit unit. */
  datatype Unit = Unit(a: Hex, b: Hex, c: Hex, d: Hex)
  {
    function Value(): (n: int)
      ensures 0 <= n < 0x10000
    {
      ((a.value * 16 + b.value) * 16 + c.value) * 16 + d.value
    }

    function Text(): string {
      [a.Text(), b.Text(), c.Text(), d.Text()]
    }
  }

  /**
   What stands between the quotes: a character as it is, a two-character
   escape, or a code point as one unit or as the two units of a surrogate pair.
   */
  datatype Piece = Plain(c: char) | Short(letter: char) | One(unit: Unit) | Pair(high: Unit, low: Unit)
  {
    predicate Valid() {
      match this
      case Plain(c) => c as int >= 0x20 && c != '\"' && c != '\\'
      case Short(letter) => letter in SHORT_LETTERS
      case One(unit) => !IsHigh(unit.Value())
      case Pair(high, low) => IsHigh(high.Value()) && IsLow(low.Value())
    }

    function Text(): string {
      match this
      case Plain(c) => [c]
      case Short(letter) => ['\\', letter]
      case One(unit) => "\\u" + unit.Text()
      case Pair(high, low) => "\\u" + high.Text() + "\\u" + low.Text()
    }

    /** The bytes it stands for. */
    function Meaning(): string
      requires Valid()
    {
      match this
      case Plain(c) => [c]
      case Short(letter) => [ShortMeaning(letter)]
      case One(unit) => Utf8(unit.Value())
      case Pair(high, low) => Utf8(PairValue(high.Value(), low.Value()))
    }
  }

  predicate IsHigh(n: int) {
    0xD800 <= n < 0xDC00
  }

  predicate IsLow(n: int) {
    0xDC00 <= n < 0xE000
  }

  /** A pair counts from 0x10000 on, ten bits a unit. */
  function PairValue(high: int, low: int): (c: int)
    requires IsHigh(high) && IsLow(low)
    ensures 0x10000 <= c < 0x110000
  {
    0x10000 + (high - 0xD800) * 0x400 + (low - 0xDC00)
  }

  const SHORT_LETTERS := "\"\\/bfnrt"

  function ShortMeaning(letter: char): char
    requires letter in SHORT_LETTERS
  {
    if letter == 'b' then 8 as char
    else if letter == 't' then 9 as char
    else if letter == 'n' then 10 as char
    else if letter == 'f' then 12 as char
    else if letter == 'r' then 13 as char
    else letter
  }

  lemma HexReads(h: Hex)
    ensures HexValue(h.Text()) == h.value
  {
  }

  lemma UnitReads(u: Unit, rest: string)
    ensures Hex4(u.Text() + rest) == Parsed.Ok(u.Value(), rest)
  {
    HexReads(u.a);
    HexReads(u.b);
    HexReads(u.c);
    HexReads(u.d);
    assert (u.Text() + rest)[4..] == rest;
  }

  /** What follows the first unit of a pair. */
  lemma SecondReads(high: int, low: int, text: string, rest: string)
    requires IsHigh(high) && IsLow(low) && Hex4(text) == Parsed.Ok(low, rest)
    ensures CodePoint(high, "\\u" + text) == Parsed.Ok(PairValue(high, low), rest)
  {
    assert ("\\u" + text)[2..] == text;
  }

  lemma PairReads(high: int, low: Unit, rest: string)
    requires IsHigh(high) && IsLow(low.Value())
    ensures CodePoint(high, "\\u" + (low.Text() + rest)) == Parsed.Ok(PairValue(high, low.Value()), rest)
  {
    UnitReads(low, rest);
    SecondReads(high, low.Value(), low.Text() + rest, rest);
  }

  lemma UnicodeFrom(s: string, high: int, after: string, c: int, rest: string)
    requires 0 <= high < 0x10000 && Hex4(s) == Parsed.Ok(high, after)
    requires 0 <= c < 0x110000 && CodePoint(high, after) == Parsed.Ok(c, rest)
    ensures UnicodeEscape(s) == Parsed.Ok(Utf8(c), rest)
  {
  }

  lemma UnicodePiece(x: string)
    ensures StringPiece("\\u" + x) == UnicodeEscape(x)
  {
    var s := "\\u" + x;
    assert s[1..][1..] == x;
  }

  lemma PairEscape(ht: string, high: int, lt: string, after: string, c: int, rest: string)
    requires after == "\\u" + (lt + rest)
    requires 0 <= high < 0x10000 && Hex4(ht + after) == Parsed.Ok(high, after)
    requires 0 <= c < 0x110000 && CodePoint(high, after) == Parsed.Ok(c, rest)
    ensures StringPiece(("\\u" + ht + "\\u" + lt) + rest) == Parsed.Ok(Utf8(c), rest)
  {
    UnicodeFrom(ht + after, high, after, c, rest);
    UnicodePiece(ht + after);
    PairText(ht, lt, rest);
  }

  lemma PairEscapeReads(high: Unit, low: Unit, rest: string)
    requires IsHigh(high.Value()) && IsLow(low.Value())
    ensures StringPiece(Pair(high, low).Text() + rest) == Parsed.Ok(Utf8(PairValue(high.Value(), low.Value())), rest)
  {
    var after := "\\u" + (low.Text() + rest);
    UnitReads(high, after);
    PairReads(high.Value(), low, rest);
    PairEscape(high.Text(), high.Value(), low.Text(), after, PairValue(high.Value(), low.Value()), rest);
  }

  lemma OneEscapeReads(unit: Unit, rest: string)
    requires !IsHigh(unit.Value())
    ensures StringPiece(One(unit).Text() + rest) == Parsed.Ok(Utf8(unit.Value()), rest)
  {
    UnitReads(unit, rest);
    UnicodeFrom(unit.Text() + rest, unit.Value(), rest, unit.Value(), rest);
    UnicodePiece(unit.Text() + rest);
    assert One(unit).Text() + rest == "\\u" + (unit.Text() + rest);
  }

  lemma PairText(high: string, low: string, rest: string)
    ensures ("\\u" + high + "\\u" + low) + rest == "\\u" + (high + ("\\u" + (low + rest)))
  {
  }

  /** The parser takes a piece whole, for what it stands for. */
  lemma PieceReads(p: Piece, rest: string)
    requires p.Valid()
    ensures p.Text() != [] && p.Text()[0] != '\"'
    ensures StringPiece(p.Text() + rest) == Parsed.Ok(p.Meaning(), rest)
  {
    var s := p.Text() + rest;
    match p
    case Plain(c) =>
      assert s[1..] == rest;
    case Short(letter) =>
      assert s[1..][0] == letter && s[1..][1..] == rest;
    case One(unit) =>
      OneEscapeReads(unit, rest);
    case Pair(high, low) =>
      PairEscapeReads(high, low, rest);
  }

  // ---- Whole strings -------------------------------------------------------------------

  predicate PiecesValid(ps: seq<Piece>) {
    forall i :: 0 <= i < |ps| ==> ps[i].Valid()
  }

  /** The pieces in order, and what follows them. */
  function PiecesThen(ps: seq<Piece>, post: string): string {
    if ps == [] then post else ps[0].Text() + PiecesThen(ps[1..], post)
  }

  function PiecesMeaning(ps: seq<Piece>): string
    requires PiecesValid(ps)
  {
    if ps == [] then [] else ps[0].Meaning() + PiecesMeaning(ps[1..])
  }

  lemma {:induction false} PiecesRead(ps: seq<Piece>, read: string, post: string)
    requires PiecesValid(ps)
    ensures StringFrom(PiecesThen(ps, "\"" + post), read) == Parsed.Ok(read + PiecesMeaning(ps), post)
    decreases |ps|
  {
    if ps == [] {
      assert ("\"" + post)[1..] == post && read + PiecesMeaning(ps) == read;
    } else {
      PieceReads(ps[0], PiecesThen(ps[1..], "\"" + post));
      PiecesRead(ps[1..], read + ps[0].Meaning(), post);
      Associate(read, ps[0].Meaning(), PiecesMeaning(ps[1..]));
    }
  }

  /** The code point of an escape with digits. */
  function EscapedPoint(p: Piece): Option<int>
    requires p.Valid()
  {
    match p
    case One(unit) => Some(unit.Value())
    case Pair(high, low) => Some(PairValue(high.Value(), low.Value()))
    case _ => None
  }

  /** Escapes of characters only: each one unit or one pair, and no half of a pair alone. */
  predicate AreScalars(ps: seq<Piece>) {
    forall i :: 0 <= i < |ps| ==> ps[i].Valid() && EscapedPoint(ps[i]).Some? && IsScalar(EscapedPoint(ps[i]).value)
  }

  function CodePoints(ps: seq<Piece>): seq<int>
    requires AreScalars(ps)
  {
    if ps == [] then [] else [EscapedPoint(ps[0]).value] + CodePoints(ps[1..])
  }

  lemma {:induction false} MeaningDecodes(ps: seq<Piece>)
    requires AreScalars(ps)
    ensures Decode(PiecesMeaning(ps)) == Some(CodePoints(ps))
  {
    if ps != [] {
      MeaningDecodes(ps[1..]);
      Utf8First(EscapedPoint(ps[0]).value, PiecesMeaning(ps[1..]));
    }
  }

  /** A document that is one string of escaped characters parses to the text of these characters in UTF-8. */
  lemma EscapedTextBack(ps: seq<Piece>)
    requires AreScalars(ps)
    ensures Document("\"" + PiecesThen(ps, "\"")) == Parsed.Ok(Str(PiecesMeaning(ps)), [])
    ensures Decode(PiecesMeaning(ps)) == Some(CodePoints(ps))
  {
    var s := "\"" + PiecesThen(ps, "\"");
    PiecesRead(ps, [], []);
    assert "\"" + [] == "\"" && s[1..] == PiecesThen(ps, "\"");
    assert [] + PiecesMeaning(ps) == PiecesMeaning(ps);
    StringWhole(s, PiecesMeaning(ps));
    MeaningDecodes(ps);
  }

  lemma StringWhole(s: string, text: string)
    requires At(s, '\"') && StringFrom(s[1..], []) == Parsed.Ok(text, [])
    ensures Document(s) == Parsed.Ok(Str(text), [])
  {
    assert Skip(s) == s;
    assert ValueAt(s) == StringAt(s);
  }

  /** Every character has an escape. */
  lemma EveryScalarEscapes(c: int) returns (p: Piece)
    requires IsScalar(c)
    ensures p.Valid() && EscapedPoint(p) == Some(c)
  {
    if c < 0x10000 {
      p := One(UnitOf(c));
    } else {
      var n := c - 0x10000;
      p := Pair(UnitOf(0xD800 + n / 0x400), UnitOf(0xDC00 + n % 0x400));
    }
  }

  function UnitOf(n: int): (u: Unit)
    requires 0 <= n < 0x10000
    ensures u.Value() == n
  {
    assert n / 256 == 16 * (n / 4096) + n / 256 % 16;
    assert n / 16 == 16 * (n / 256) + n / 16 % 16;
    Unit(Hex(n / 4096, false), Hex(n / 256 % 16, false), Hex(n / 16 % 16, false), Hex(n % 16, false))
  }

  // ---- What the parser takes -----------------------------------------------------------

  lemma HexTaken(c: char) returns (h: Hex)
    requires HexValue(c) >= 0
    ensures h.Text() == c && h.value == HexValue(c)
  {
    h := Hex(HexValue(c), 'A' <= c <= 'F');
  }

  lemma UnitTaken(s: string) returns (u: Unit)
    requires Hex4(s).Ok?
    ensures s == u.Text() + Hex4(s).rest && u.Value() == Hex4(s).value
  {
    var a := HexTaken(s[0]);
    var b := HexTaken(s[1]);
    var c := HexTaken(s[2]);
    var d := HexTaken(s[3]);
    u := Unit(a, b, c, d);
    assert s == [s[0], s[1], s[2], s[3]] + s[4..];
  }

  lemma SecondTaken(high: int, after: string) returns (low: Unit)
    requires IsHigh(high) && CodePoint(high, after).Ok?
    ensures IsLow(low.Value()) && after == "\\u" + (low.Text() + CodePoint(high, after).rest)
    ensures CodePoint(high, after).value == PairValue(high, low.Value())
  {
    low := UnitTaken(after[2..]);
    assert after == "\\u" + after[2..];
  }

  /** Whatever follows a backslash and a u is one unit or a pair. */
  lemma UnicodeTaken(s: string) returns (p: Piece)
    requires UnicodeEscape(s).Ok?
    ensures p.Valid() && p.Meaning() == UnicodeEscape(s).value
    ensures "\\u" + s == p.Text() + UnicodeEscape(s).rest
  {
    var high := UnitTaken(s);
    var after := Hex4(s).rest;
    if IsHigh(high.Value()) {
      var low := SecondTaken(high.Value(), after);
      p := Pair(high, low);
      PairText(high.Text(), low.Text(), UnicodeEscape(s).rest);
    } else {
      p := One(high);
      Associate("\\u", high.Text(), after);
    }
  }

  lemma ShortTaken(s: string) returns (p: Piece)
    requires s != [] && s[0] != 'u' && Escape(s).Ok?
    ensures p.Valid() && p.Meaning() == Escape(s).value && "\\" + s == p.Text() + Escape(s).rest
  {
    p := Short(s[0]);
    assert "\\" + s == ['\\', s[0]] + s[1..];
  }

  lemma EscapeOfU(s: string)
    requires s != [] && s[0] == 'u'
    ensures Escape(s) == UnicodeEscape(s[1..]) && "\\" + s == "\\u" + s[1..]
  {
  }

  lemma EscapeTaken(s: string) returns (p: Piece)
    requires Escape(s).Ok?
    ensures p.Valid() && p.Meaning() == Escape(s).value && "\\" + s == p.Text() + Escape(s).rest
  {
    if s[0] == 'u' {
      EscapeOfU(s);
      p := UnicodeTaken(s[1..]);
    } else {
      p := ShortTaken(s);
    }
  }

  lemma PieceTaken(s: string) returns (p: Piece)
    requires s != [] && s[0] != '\"' && StringPiece(s).Ok?
    ensures p.Valid() && p.Meaning() == StringPiece(s).value && s == p.Text() + StringPiece(s).rest
  {
    assert s == [s[0]] + s[1..];
    if s[0] != '\\' {
      p := Plain(s[0]);
    } else {
      p := EscapeTaken(s[1..]);
    }
  }

  lemma {:induction false} PiecesTaken(s: string, read: string) returns (ps: seq<Piece>)
    requires StringFrom(s, read).Ok?
    ensures PiecesValid(ps) && s == PiecesThen(ps, "\"" + StringFrom(s, read).rest)
    ensures StringFrom(s, read).value == read + PiecesMeaning(ps)
    decreases |s|
  {
    if s[0] == '\"' {
      ps := [];
      assert s == "\"" + s[1..] && read + [] == read;
    } else {
      var p := PieceTaken(s);
      var piece := StringPiece(s);
      ps := PiecesTaken(piece.rest, read + piece.value);
      Associate(read, p.Meaning(), PiecesMeaning(ps));
      ps := [p] + ps;
    }
  }
}
