/**
 The rollback journal of a multi-file commit: the text written to the
 transaction marker, and the reader that recovery runs over it.
 */
module Journal {
  import opened Sequences
  import opened Options

  datatype Entry = Entry(path: string, existed: bool)

  datatype Record = Record(nonce: string, entries: seq<Entry>)

  // ---- Hexadecimal ------------------------------------------------------

  /** std::string holds bytes. */
  ghost predicate AllBytes(s: string) {
    forall i :: 0 <= i < |s| ==> s[i] as int < 256
  }

  /** The n-th character of "0123456789abcdef". */
  function Digit(n: nat): (c: char)
    requires n < 16
  {
    if n < 10 then ('0' as int + n) as char else ('a' as int + n - 10) as char
  }

  function DigitValue(c: char): (n: int)
    ensures -1 <= n < 16
  {
    if '0' <= c <= '9' then c as int - '0' as int
    else if 'a' <= c <= 'f' then c as int - 'a' as int + 10
    else -1
  }

  function High(c: char): char
    requires c as int < 256
  {
    Digit(c as int / 16)
  }

  function Low(c: char): char
    requires c as int < 256
  {
    Digit(c as int % 16)
  }

  function PairValue(high: int, low: int): (c: char)
    requires 0 <= high < 16 && 0 <= low < 16
    ensures c as int == 16 * high + low
  {
    (16 * high + low) as char
  }

  lemma PairBack(c: char)
    requires c as int < 256
    ensures DigitValue(High(c)) == c as int / 16 && DigitValue(Low(c)) == c as int % 16
    ensures PairValue(DigitValue(High(c)), DigitValue(Low(c))) == c
  {
  }

  ghost function Hex(s: string): (h: string)
    requires AllBytes(s)
    ensures |h| == 2 * |s|
  {
    if s == [] then [] else Hex(s[..|s| - 1]) + [High(s[|s| - 1]), Low(s[|s| - 1])]
  }

  ghost function Unhex(h: string): Option<string> {
    if h == [] then Some([])
    else if |h| == 1 then None
    else
      var high, low := DigitValue(h[|h| - 2]), DigitValue(h[|h| - 1]);
      match Unhex(h[..|h| - 2])
      case None => None
      case Some(s) => if high < 0 || low < 0 then None else Some(s + [PairValue(high, low)])
  }

  lemma {:induction false} HexOneLine(s: string)
    requires AllBytes(s)
    ensures OneLine(Hex(s))
  {
    if s != [] {
      HexOneLine(s[..|s| - 1]);
      PairBack(s[|s| - 1]);
    }
  }

  /** Decoding undoes encoding on every byte string. */
  lemma {:induction false} UnhexHex(s: string)
    requires AllBytes(s)
    ensures Unhex(Hex(s)) == Some(s)
  {
    if s != [] {
      var init, last := s[..|s| - 1], s[|s| - 1];
      var high, low := High(last), Low(last);
      UnhexHex(init);
      PairBack(last);
      UnhexStep(Hex(init), high, low);
      assert Hex(s) == Hex(init) + [high, low] && s == init + [last];
    }
  }

  lemma UnhexStep(h: string, a: char, b: char)
    ensures Unhex(h + [a, b]) == match Unhex(h)
                                 case None => None
                                 case Some(s) =>
                                   if DigitValue(a) < 0 || DigitValue(b) < 0 then None
                                   else Some(s + [PairValue(DigitValue(a), DigitValue(b))])
  {
  }

  method HexEncode(input: string) returns (output: string)
    requires AllBytes(input)
    ensures output == Hex(input)
  {
    output := "";
    var i := 0;
    while i < |input|
      invariant 0 <= i <= |input|
      invariant output == Hex(input[..i])
    {
      output := output + [High(input[i])];
      output := output + [Low(input[i])];
      assert input[..i + 1][..i] == input[..i];
      i := i + 1;
    }
    assert input[..i] == input;
  }

  lemma {:induction false} UnhexPrefixFails(h: string, k: nat)
    requires k <= |h| && k % 2 == 0 && |h| % 2 == 0 && Unhex(h[..k]) == None
    ensures Unhex(h) == None
    decreases |h| - k
  {
    if k < |h| {
      assert h[..k + 2][..k] == h[..k];
      UnhexPrefixFails(h, k + 2);
    } else {
      assert h[..k] == h;
    }
  }

  lemma {:induction false} UnhexOdd(h: string)
    requires |h| % 2 == 1
    ensures Unhex(h) == None
  {
    if |h| > 1 {
      UnhexOdd(h[..|h| - 2]);
    }
  }

  method HexDecode(input: string) returns (r: Option<string>)
    ensures r == Unhex(input)
  {
    if |input| % 2 != 0 {
      UnhexOdd(input);
      return None;
    }
    var output := "";
    var index := 0;
    while index < |input|
      invariant 0 <= index <= |input| && index % 2 == 0
      invariant Unhex(input[..index]) == Some(output)
    {
      var high := DigitValue(input[index]);
      var low := DigitValue(input[index + 1]);
      assert input[..index + 2][..index] == input[..index];
      if high < 0 || low < 0 {
        UnhexPrefixFails(input, index + 2);
        return None;
      }
      output := output + [PairValue(high, low)];
      index := index + 2;
    }
    assert input[..index] == input;
    return Some(output);
  }

  // ---- Lines --------------------------------------------------------------

  /** What repeated std::getline yields. */
  function Lines(text: string): seq<string> {
    if text == [] then []
    else
      var n := LineEnd(text);
      if n == |text| then [text] else [text[..n]] + Lines(text[n + 1..])
  }

  function LineEnd(text: string): (n: nat)
    ensures n <= |text|
    ensures forall i :: 0 <= i < n ==> text[i] != '\n'
    ensures n < |text| ==> text[n] == '\n'
  {
    if text == [] || text[0] == '\n' then 0 else 1 + LineEnd(text[1..])
  }

  ghost predicate OneLine(s: string) {
    forall i :: 0 <= i < |s| ==> s[i] != '\n'
  }

  lemma FirstLine(line: string, rest: string)
    requires OneLine(line)
    ensures Lines(line + ['\n'] + rest) == [line] + Lines(rest)
  {
    var text := line + ['\n'] + rest;
    var n := LineEnd(text);
    assert text[|line|] == '\n';
    assert forall i :: 0 <= i < |line| ==> text[i] == line[i];
    assert n == |line|;
    assert text[..n] == line && text[n + 1..] == rest;
  }

  lemma {:induction false} LastLine(text: string, line: string)
    requires text == [] || text[|text| - 1] == '\n'
    requires OneLine(line)
    ensures Lines(text + (line + ['\n'])) == Lines(text) + [line]
  {
    var nl := ['\n'];
    if text == [] {
      FirstLine(line, []);
      assert line + nl + [] == text + (line + nl);
    } else {
      var n := LineEnd(text);
      var first, rest := text[..n], text[n + 1..];
      LastLine(rest, line);
      SplitAt(text, n);
      FirstLine(first, rest);
      FirstLine(first, rest + (line + nl));
      Associate(first + nl, rest, line + nl);
      Associate([first], Lines(rest), [line]);
    }
  }

  lemma SplitAt(text: string, n: nat)
    requires n < |text| && text[n] == '\n'
    ensures text == text[..n] + ['\n'] + text[n + 1..]
    ensures text[n + 1..] == [] || text[n + 1..][|text| - n - 2] == text[|text| - 1]
  {
  }

  // ---- The journal ----------------------------------------------------------

  const VERSION := "CUTMACHINE_TRANSACTION_V1"
  const NONCE_HEAD := ".cutmachine-"

  predicate IsAlnum(c: char) {
    '0' <= c <= '9' || 'A' <= c <= 'Z' || 'a' <= c <= 'z'
  }

  predicate ValidNonce(nonce: string) {
    |nonce| == 38 && nonce[..12] == NONCE_HEAD && forall i :: 12 <= i < 38 ==> IsAlnum(nonce[i])
  }

  /** Path components between slashes. */
  function Components(path: string): seq<string> {
    if path == [] then [[]]
    else
      var rest := Components(path[1..]);
      if path[0] == '/' || rest == [] then [[]] + rest else [[path[0]] + rest[0]] + rest[1..]
  }

  /** Relative, non-empty and never climbing. */
  predicate SafeRelative(path: string) {
    path != [] && path[0] != '/' && ".." !in Components(path)
  }

  /** The name stands alone at that place of the path, between slashes or at an end. */
  ghost predicate ComponentAt(path: string, name: string, i: nat) {
    && i + |name| <= |path| && path[i..i + |name|] == name
    && (i > 0 ==> path[i - 1] == '/') && (i + |name| < |path| ==> path[i + |name|] == '/')
  }

  lemma ComponentShifts(path: string, name: string, i: nat)
    requires path != []
    ensures ComponentAt(path, name, i + 1) <==> ComponentAt(path[1..], name, i) && (i == 0 ==> path[0] == '/')
  {
    if i + 1 + |name| <= |path| {
      assert path[1..][i..i + |name|] == path[i + 1..i + 1 + |name|];
    }
  }

  lemma FirstIs(path: string, name: string)
    requires path != [] && '/' !in name && path[0] != '/'
    ensures ComponentAt(path, name, 0) <==> name != [] && name[0] == path[0] && ComponentAt(path[1..], name[1..], 0)
  {
    if name != [] && |name| <= |path| {
      assert path[..|name|] == [path[0]] + path[1..][..|name| - 1] && name == [name[0]] + name[1..];
    }
  }

  lemma {:induction false} FirstComponent(path: string, name: string)
    requires '/' !in name
    ensures Components(path) != [] && (Components(path)[0] == name <==> ComponentAt(path, name, 0))
    decreases |path|
  {
    if path != [] {
      FirstComponent(path[1..], if name == [] then [] else name[1..]);
      if path[0] != '/' {
        FirstIs(path, name);
        var first := Components(path[1..])[0];
        assert Components(path)[0] == [path[0]] + first;
        if name != [] {
          assert name == [name[0]] + name[1..];
          assert ([path[0]] + first)[1..] == first;
        }
      } else if name != [] && |name| <= |path| {
        assert path[..|name|][0] == '/' && name[0] in name;
      }
    }
  }

  /** The components after the first are the names that stand alone further on. */
  lemma {:induction false} LaterComponents(path: string, name: string)
    requires '/' !in name
    ensures Components(path) != [] && (name in Components(path)[1..] <==> exists i: nat :: i > 0 && ComponentAt(path, name, i))
    decreases |path|
  {
    if path != [] {
      LaterComponents(path[1..], name);
      FirstComponent(path[1..], name);
      var rest := Components(path[1..]);
      assert rest == [rest[0]] + rest[1..];
      assert Components(path)[1..] == if path[0] == '/' then rest else rest[1..];
      forall i: nat ensures ComponentAt(path, name, i + 1) <==> ComponentAt(path[1..], name, i) && (i == 0 ==> path[0] == '/') {
        ComponentShifts(path, name, i);
      }
      if i: nat :| i > 0 && ComponentAt(path, name, i) {
        assert ComponentAt(path, name, (i - 1) + 1);
        assert ComponentAt(path[1..], name, i - 1);
      }
      if j: nat :| ComponentAt(path[1..], name, j) && (j == 0 ==> path[0] == '/') {
        assert ComponentAt(path, name, j + 1);
      }
      if name in Components(path)[1..] {
        assert name == rest[0] || name in rest[1..];
      }
    } else {
      assert Components(path)[1..] == [];
    }
  }

  /** The components of a path are the names that stand alone in it; a safe path is relative and has none that climbs. */
  lemma SafeIff(path: string)
    ensures SafeRelative(path) <==> path != [] && path[0] != '/' && forall i: nat :: !ComponentAt(path, "..", i)
  {
    FirstComponent(path, "..");
    LaterComponents(path, "..");
    var c := Components(path);
    assert c == [c[0]] + c[1..];
  }

  ghost function EntryLine(e: Entry): string
    requires AllBytes(e.path)
  {
    [if e.existed then '1' else '0', ' '] + Hex(e.path)
  }

  ghost predicate AllPathsBytes(entries: seq<Entry>) {
    forall i :: 0 <= i < |entries| ==> AllBytes(entries[i].path)
  }

  ghost function EntryText(entries: seq<Entry>): string
    requires AllPathsBytes(entries)
  {
    if entries == [] then []
    else EntryText(entries[..|entries| - 1]) + (EntryLine(entries[|entries| - 1]) + ['\n'])
  }

  ghost function EntryLines(entries: seq<Entry>): seq<string>
    requires AllPathsBytes(entries)
  {
    if entries == [] then []
    else EntryLines(entries[..|entries| - 1]) + [EntryLine(entries[|entries| - 1])]
  }

  ghost function Text(r: Record): string
    requires AllPathsBytes(r.entries)
  {
    VERSION + ['\n'] + (r.nonce + ['\n'] + EntryText(r.entries))
  }

  ghost function ParseEntry(line: string): Option<Entry> {
    if |line| < 3 || line[1] != ' ' || (line[0] != '0' && line[0] != '1') then None
    else match Unhex(line[2..])
      case None => None
      case Some(path) => if SafeRelative(path) then Some(Entry(path, line[0] == '1')) else None
  }

  ghost function ParseEntries(lines: seq<string>): Option<seq<Entry>> {
    if lines == [] then Some([])
    else
      match (ParseEntries(lines[..|lines| - 1]), ParseEntry(lines[|lines| - 1]))
      case (Some(es), Some(e)) => Some(es + [e])
      case _ => None
  }

  ghost function Parse(text: string): Option<Record> {
    var lines := Lines(text);
    if |lines| < 2 || lines[0] != VERSION || !ValidNonce(lines[1]) then None
    else match ParseEntries(lines[2..])
      case None => None
      case Some(es) => Some(Record(lines[1], es))
  }

  ghost predicate AllPathsSafe(entries: seq<Entry>) {
    forall i :: 0 <= i < |entries| ==> SafeRelative(entries[i].path)
  }

  ghost predicate WellFormed(r: Record) {
    ValidNonce(r.nonce) && AllPathsBytes(r.entries) && AllPathsSafe(r.entries)
  }

  lemma {:induction false} LinesOfEntries(entries: seq<Entry>)
    requires AllPathsBytes(entries)
    ensures Lines(EntryText(entries)) == EntryLines(entries)
    ensures entries != [] ==> EntryText(entries) != [] && EntryText(entries)[|EntryText(entries)| - 1] == '\n'
  {
    if entries != [] {
      var init := entries[..|entries| - 1];
      LinesOfEntries(init);
      HexOneLine(entries[|entries| - 1].path);
      LastLine(EntryText(init), EntryLine(entries[|entries| - 1]));
    }
  }

  lemma {:induction false} ParseEntryLines(entries: seq<Entry>)
    requires AllPathsBytes(entries) && AllPathsSafe(entries)
    ensures ParseEntries(EntryLines(entries)) == Some(entries)
  {
    if entries != [] {
      var init, last := entries[..|entries| - 1], entries[|entries| - 1];
      ParseEntryLines(init);
      ParseEntryLine(last);
      ParseStep(EntryLines(init), EntryLine(last), init, last);
      assert entries == init + [last];
    }
  }

  lemma ParseStep(lines: seq<string>, line: string, es: seq<Entry>, e: Entry)
    requires ParseEntries(lines) == Some(es) && ParseEntry(line) == Some(e)
    ensures ParseEntries(lines + [line]) == Some(es + [e])
  {
  }

  lemma ParseEntryLine(e: Entry)
    requires AllBytes(e.path) && SafeRelative(e.path)
    ensures ParseEntry(EntryLine(e)) == Some(e)
  {
    UnhexHex(e.path);
    var line := EntryLine(e);
    assert line[2..] == Hex(e.path);
  }

  /** Recovery reads back exactly what the commit wrote. */
  lemma ParseText(r: Record)
    requires WellFormed(r)
    ensures Parse(Text(r)) == Some(r)
  {
    var body := EntryText(r.entries);
    NonceIsOneLine(r.nonce);
    HeaderSplits(VERSION, r.nonce, body);
    LinesOfEntries(r.entries);
    ParseEntryLines(r.entries);
    HeaderLines(Text(r), r.nonce, Lines(body));
  }

  lemma HeaderSplits(version: string, nonce: string, body: string)
    requires OneLine(version) && OneLine(nonce)
    ensures Lines(version + ['\n'] + (nonce + ['\n'] + body)) == [version] + ([nonce] + Lines(body))
  {
    FirstLine(version, nonce + ['\n'] + body);
    FirstLine(nonce, body);
  }

  lemma NonceIsOneLine(nonce: string)
    requires ValidNonce(nonce)
    ensures OneLine(nonce)
  {
  }

  lemma HeaderLines(text: string, nonce: string, body: seq<string>)
    requires ValidNonce(nonce) && Lines(text) == [VERSION] + ([nonce] + body)
    ensures Parse(text) == match ParseEntries(body) case None => None case Some(es) => Some(Record(nonce, es))
  {
    var lines := Lines(text);
    assert lines[0] == VERSION && lines[1] == nonce && lines[2..] == body;
  }

  /** The journal stream as the commit builds it. */
  method WriteJournal(r: Record) returns (text: string)
    requires WellFormed(r)
    ensures text == Text(r)
  {
    ghost var body := "";
    text := VERSION + ['\n'] + (r.nonce + ['\n']);
    ghost var head := text;
    var i := 0;
    while i < |r.entries|
      invariant 0 <= i <= |r.entries|
      invariant body == EntryText(r.entries[..i])
      invariant text == head + body
    {
      var e := r.entries[i];
      var hex := HexEncode(e.path);
      var flag := [if e.existed then '1' else '0', ' '];
      ghost var line := EntryLine(e);
      assert r.entries[..i + 1][..i] == r.entries[..i];
      Associate(text, flag, hex);
      Associate(text, line, ['\n']);
      Associate(head, body, line + ['\n']);
      text := text + flag + hex + ['\n'];
      body := body + (line + ['\n']);
      i := i + 1;
    }
    assert r.entries[..i] == r.entries;
    Associate(VERSION + ['\n'], r.nonce + ['\n'], body);
  }

  lemma {:induction false} ParseEntriesFails(lines: seq<string>, k: nat)
    requires k <= |lines| && ParseEntries(lines[..k]) == None
    ensures ParseEntries(lines) == None
    decreases |lines| - k
  {
    if k < |lines| {
      assert lines[..k + 1][..k] == lines[..k];
      ParseEntriesFails(lines, k + 1);
    } else {
      assert lines[..k] == lines;
    }
  }

  method ReadEntry(line: string) returns (r: Option<Entry>)
    ensures r == ParseEntry(line)
  {
    if |line| < 3 || line[1] != ' ' || (line[0] != '0' && line[0] != '1') {
      return None;
    }
    var decoded := HexDecode(line[2..]);
    if decoded.None? || !SafeRelative(decoded.value) {
      return None;
    }
    return Some(Entry(decoded.value, line[0] == '1'));
  }

  /** The reader of recovery: refuses a damaged marker, a bad nonce and an unsafe path. */
  method ReadJournal(text: string) returns (r: Option<Record>)
    ensures r == Parse(text)
  {
    var lines := Lines(text);
    if |lines| < 2 || lines[0] != VERSION || !ValidNonce(lines[1]) {
      return None;
    }
    var body := lines[2..];
    var entries: seq<Entry> := [];
    var i := 0;
    while i < |body|
      invariant 0 <= i <= |body|
      invariant ParseEntries(body[..i]) == Some(entries)
    {
      assert body[..i + 1][..i] == body[..i];
      var entry := ReadEntry(body[i]);
      if entry.None? {
        ParseEntriesFails(body, i + 1);
        return None;
      }
      entries := entries + [entry.value];
      i := i + 1;
    }
    assert body[..i] == body;
    return Some(Record(lines[1], entries));
  }

  // ---- What recovery accepts ------------------------------------------------------

  const DIGITS := "0123456789abcdef"
  const LETTERS := "abcdefghijklmnopqrstuvwxyz"

  lemma DigitIff(c: char)
    ensures '0' <= c <= '9' <==> c in DIGITS[..10]
  {
    if '0' <= c <= '9' {
      assert DIGITS[..10][c as int - '0' as int] == c;
    }
  }

  lemma LetterIff(c: char)
    ensures 'a' <= c <= 'z' <==> c in LETTERS
  {
    if 'a' <= c <= 'z' {
      assert LETTERS[c as int - 'a' as int] == c;
    }
  }

  /** The characters a nonce is made of: digits and letters of either case. */
  lemma AlnumIff(c: char)
    ensures IsAlnum(c) <==> c in DIGITS[..10] || c in LETTERS || (c as int < 128 && c + ' ' in LETTERS)
  {
    DigitIff(c);
    LetterIff(c);
    if c as int < 128 {
      LetterIff(c + ' ');
    }
  }

  /** Two digits for each byte, the high one first. */
  lemma {:induction false} HexAt(s: string, i: nat)
    requires AllBytes(s) && i < |s|
    ensures Hex(s)[2 * i] == DIGITS[s[i] as int / 16] && Hex(s)[2 * i + 1] == DIGITS[s[i] as int % 16]
  {
    if i < |s| - 1 {
      HexAt(s[..|s| - 1], i);
    } else {
      DigitIs(s[i] as int / 16);
      DigitIs(s[i] as int % 16);
    }
  }

  lemma DigitIs(n: nat)
    requires n < 16
    ensures Digit(n) == DIGITS[n]
  {
  }

  lemma PairIs(a: char, b: char)
    requires DigitValue(a) >= 0 && DigitValue(b) >= 0
    ensures var c := PairValue(DigitValue(a), DigitValue(b)); c as int < 256 && High(c) == a && Low(c) == b
  {
  }

  lemma UnhexEnds(h: string) returns (init: string, c: char)
    requires h != [] && Unhex(h).Some?
    ensures |init| < |h| && Unhex(init).Some? && Unhex(h) == Some(Unhex(init).value + [c])
    ensures c as int < 256 && h == init + [High(c), Low(c)]
  {
    init := h[..|h| - 2];
    var a, b := h[|h| - 2], h[|h| - 1];
    PairIs(a, b);
    c := PairValue(DigitValue(a), DigitValue(b));
    assert h == init + [a, b];
  }

  /** What decodes is the encoding of what it decodes to. */
  lemma {:induction false} HexUnhex(h: string)
    requires Unhex(h).Some?
    ensures AllBytes(Unhex(h).value) && Hex(Unhex(h).value) == h
    decreases |h|
  {
    if h != [] {
      var init, c := UnhexEnds(h);
      HexUnhex(init);
      HexOneMore(Unhex(init).value, c);
    }
  }

  lemma HexOneMore(s: string, c: char)
    requires AllBytes(s) && c as int < 256
    ensures AllBytes(s + [c]) && Hex(s + [c]) == Hex(s) + [High(c), Low(c)]
  {
    assert (s + [c])[..|s|] == s;
  }

  ghost function Joined(lines: seq<string>): string {
    if lines == [] then [] else lines[0] + ['\n'] + Joined(lines[1..])
  }

  /** The text, with a newline at its end if it has none. */
  ghost function Ended(text: string): string {
    if text == [] || text[|text| - 1] == '\n' then text else text + ['\n']
  }

  lemma {:induction false} LinesJoined(text: string)
    ensures Joined(Lines(text)) == Ended(text)
  {
    if text != [] {
      var n := LineEnd(text);
      if n == |text| {
        assert Lines(text)[1..] == [] && text + ['\n'] + [] == text + ['\n'];
      } else {
        LinesJoined(text[n + 1..]);
        assert Lines(text)[1..] == Lines(text[n + 1..]);
        EndedAfter(text, n);
      }
    }
  }

  /** Only what is behind a newline decides whether the text ends with one. */
  lemma EndedAfter(text: string, n: nat)
    requires n < |text| && text[n] == '\n'
    ensures Ended(text) == text[..n] + ['\n'] + Ended(text[n + 1..])
  {
    var front, rest := text[..n] + ['\n'], text[n + 1..];
    assert text == front + rest;
    Associate(front, rest, ['\n']);
    assert rest == [] ==> text[|text| - 1] == '\n';
    assert rest != [] ==> rest[|rest| - 1] == text[|text| - 1];
  }

  lemma {:induction false} JoinedMore(lines: seq<string>, line: string)
    ensures Joined(lines + [line]) == Joined(lines) + (line + ['\n'])
  {
    if lines == [] {
      assert ([] + [line])[1..] == [] && line + ['\n'] + [] == [] + (line + ['\n']);
    } else {
      assert (lines + [line])[1..] == lines[1..] + [line];
      JoinedMore(lines[1..], line);
      Associate(lines[0] + ['\n'], Joined(lines[1..]), line + ['\n']);
    }
  }

  lemma {:induction false} EntriesJoined(entries: seq<Entry>)
    requires AllPathsBytes(entries)
    ensures Joined(EntryLines(entries)) == EntryText(entries)
  {
    if entries != [] {
      EntriesJoined(entries[..|entries| - 1]);
      JoinedMore(EntryLines(entries[..|entries| - 1]), EntryLine(entries[|entries| - 1]));
    }
  }

  lemma ParsedParts(line: string)
    requires ParseEntry(line).Some?
    ensures |line| >= 3 && line[1] == ' ' && (line[0] == '0' || line[0] == '1') && Unhex(line[2..]).Some?
    ensures ParseEntry(line).value == Entry(Unhex(line[2..]).value, line[0] == '1') && SafeRelative(Unhex(line[2..]).value)
  {
  }

  lemma LineOf(line: string, e: Entry, hex: string)
    requires |line| >= 3 && line[1] == ' ' && (line[0] == '0' || line[0] == '1') && hex == line[2..]
    requires AllBytes(e.path) && Hex(e.path) == hex && e.existed == (line[0] == '1')
    ensures EntryLine(e) == line
  {
    assert line == [line[0], line[1]] + hex;
  }

  lemma ParsedEntry(line: string)
    requires ParseEntry(line).Some?
    ensures var e := ParseEntry(line).value; AllBytes(e.path) && SafeRelative(e.path) && EntryLine(e) == line
  {
    ParsedParts(line);
    HexUnhex(line[2..]);
    LineOf(line, ParseEntry(line).value, line[2..]);
  }

  lemma ParsedEnds(lines: seq<string>)
    requires lines != [] && ParseEntries(lines).Some?
    ensures var front, last := lines[..|lines| - 1], lines[|lines| - 1];
            ParseEntries(front).Some? && ParseEntry(last).Some? && lines == front + [last] &&
            ParseEntries(lines).value == ParseEntries(front).value + [ParseEntry(last).value]
  {
  }

  ghost predicate AreWritten(es: seq<Entry>, lines: seq<string>) {
    AllPathsBytes(es) && AllPathsSafe(es) && EntryLines(es) == lines
  }

  lemma {:induction false} ParsedEntries(lines: seq<string>)
    requires ParseEntries(lines).Some?
    ensures AreWritten(ParseEntries(lines).value, lines)
    decreases |lines|
  {
    if lines != [] {
      var front, last := lines[..|lines| - 1], lines[|lines| - 1];
      ParsedEnds(lines);
      ParsedEntries(front);
      ParsedEntry(last);
      OneMoreParsed(ParseEntries(front).value, ParseEntry(last).value, front, last);
    }
  }

  lemma OneMoreParsed(es: seq<Entry>, e: Entry, lines: seq<string>, line: string)
    requires AreWritten(es, lines) && AllBytes(e.path) && SafeRelative(e.path) && EntryLine(e) == line
    ensures AreWritten(es + [e], lines + [line])
  {
    assert (es + [e])[..|es|] == es;
  }

  lemma JoinedHeader(version: string, nonce: string, lines: seq<string>)
    ensures Joined([version, nonce] + lines) == version + ['\n'] + (nonce + ['\n'] + Joined(lines))
  {
    var all := [version, nonce] + lines;
    assert all[1..] == [nonce] + lines && all[1..][1..] == lines;
  }

  lemma ParsedRecord(text: string)
    requires Parse(text).Some?
    ensures var lines, r := Lines(text), Parse(text).value;
            |lines| >= 2 && lines[0] == VERSION && lines[1] == r.nonce && ValidNonce(r.nonce) &&
            ParseEntries(lines[2..]) == Some(r.entries)
  {
  }

  lemma AcceptedIsWritten(text: string)
    requires Parse(text).Some?
    ensures WellFormed(Parse(text).value) && Ended(text) == Text(Parse(text).value)
  {
    var lines, r := Lines(text), Parse(text).value;
    ParsedRecord(text);
    ParsedEntries(lines[2..]);
    EntriesJoined(r.entries);
    assert lines == [VERSION, r.nonce] + lines[2..];
    JoinedHeader(VERSION, r.nonce, lines[2..]);
    LinesJoined(text);
  }

  /** Recovery accepts exactly what a commit can write, but for the newline at its end. */
  lemma AcceptsWritten(text: string, r: Record)
    ensures Parse(text) == Some(r) <==> WellFormed(r) && Ended(text) == Text(r)
  {
    if Parse(text) == Some(r) {
      AcceptedIsWritten(text);
    }
    if WellFormed(r) && Ended(text) == Text(r) {
      ParseText(r);
      SameLines(text);
    }
  }

  /** A newline at the end starts no line. */
  lemma {:induction false} SameLines(text: string)
    ensures Lines(Ended(text)) == Lines(text)
  {
    if text != [] && text[|text| - 1] != '\n' {
      var n := LineEnd(text);
      if n == |text| {
        FirstLine(text, []);
        assert text + ['\n'] + [] == Ended(text);
      } else {
        SameLines(text[n + 1..]);
        EndedAfter(text, n);
        FirstLine(text[..n], Ended(text[n + 1..]));
      }
    }
  }
}
