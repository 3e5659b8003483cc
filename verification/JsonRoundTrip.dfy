/** Printing and parsing undo each other on exactly the well-formed values. */
module JsonRoundTrip {
  import opened Sequences
  import opened Json
  import opened JsonNumbers

  /** What may follow a value inside a document. */
  ghost predicate Delimited(post: string) {
    post == [] || post[0] == ',' || post[0] == ']' || post[0] == '}' || IsSpace(post[0])
  }

  // ---- Strings -----------------------------------------------------------------

  lemma ControlBack(c: char, rest: string)
    requires c as int < 0x20
    ensures UnicodeEscape("00" + [HexDigit(c as int / 16), HexDigit(c as int % 16)] + rest) == Ok([c], rest)
  {
  }

  /** Reading back one escaped byte. */
  lemma PieceBack(c: char, rest: string)
    ensures var s := EscapedChar(c) + rest;
            s != [] && s[0] != '\"' && StringPiece(s) == Ok([c], rest)
  {
    var e := EscapedChar(c);
    var s := e + rest;
    if e == [c] {
      assert s[1..] == rest;
    } else if |e| == 2 {
      assert s[0] == '\\' && s[1] == e[1];
      assert s[1..][1..] == rest && s[1..][0] == e[1];
      assert c as int == 8 ==> [8 as char] == [c];
      assert c as int == 12 ==> [12 as char] == [c];
    } else {
      var h, l := HexDigit(c as int / 16), HexDigit(c as int % 16);
      assert c as int < 0x20 && e == "\\u00" + [h, l];
      assert s[0] == '\\' && s[1..][0] == 'u';
      assert s[1..][1..] == "00" + [h, l] + rest;
      ControlBack(c, rest);
    }
  }

  /** Any byte string, escaped and closed, reads back as itself. */
  lemma {:induction false} StringBack(text: string, read: string, post: string)
    ensures StringFrom(Escaped(text) + ("\"" + post), read) == Ok(read + text, post)
    decreases |text|
  {
    var close := "\"" + post;
    if text == [] {
      assert Escaped(text) + close == close && close[0] == '\"' && close[1..] == post;
      assert read + text == read;
    } else {
      var c, rest := text[0], Escaped(text[1..]) + close;
      Associate(EscapedChar(c), Escaped(text[1..]), close);
      PieceBack(c, rest);
      StringBack(text[1..], read + [c], post);
      Associate(read, [c], text[1..]);
      assert [c] + text[1..] == text;
    }
  }

  lemma QuotedBack(text: string, post: string)
    ensures var s := Quoted(text) + post;
            At(s, '\"') && StringFrom(s[1..], []) == Ok(text, post)
  {
    var s := Quoted(text) + post;
    assert s[1..] == Escaped(text) + ("\"" + post);
    StringBack(text, [], post);
    assert [] + text == text;
  }

  // ---- Values ----------------------------------------------------------------------

  ghost predicate DistinctKeys(fields: seq<Field>) {
    forall i, j :: 0 <= i < j < |fields| ==> fields[i].key != fields[j].key
  }

  /** Every number a literal, every object without a repeated key, at every depth. */
  ghost predicate Valid(v: Value)
    decreases v, 1
  {
    match v
    case Number(literal) => IsNumber(literal)
    case Arr(items) => AllValid(items)
    case Obj(fields) => DistinctKeys(fields) && AllFieldsValid(fields)
    case _ => true
  }

  ghost predicate AllValid(items: seq<Value>)
    decreases items, 0
  {
    items != [] ==> Valid(items[0]) && AllValid(items[1..])
  }

  ghost predicate AllFieldsValid(fields: seq<Field>)
    decreases fields, 0
  {
    fields != [] ==> Valid(fields[0].value) && AllFieldsValid(fields[1..])
  }

  /** A printed value starts with a character that begins a value. */
  lemma DumpHead(v: Value)
    requires Valid(v)
    ensures Dump(v) != [] && !IsSpace(Dump(v)[0]) && Dump(v)[0] != ']' && Dump(v)[0] != '}'
  {
  }

  lemma TailsDelimit(items: seq<Value>, fields: seq<Field>, post: string)
    ensures Delimited(ItemsTail(items) + post) && Delimited(FieldsTail(fields) + post)
  {
  }

  lemma PrefixBack(word: string, post: string)
    ensures word <= word + post && (word + post)[|word|..] == post
  {
  }

  /** Parsing what was printed gives the value back, whatever follows. */
  lemma {:induction false} ValueBack(v: Value, post: string)
    requires Valid(v) && Delimited(post)
    ensures ValueAt(Dump(v) + post) == Ok(v, post)
    decreases v, 2
  {
    match v
    case Null =>
      WordBack(v, "null", post);
    case Bool(b) =>
      WordBack(v, if b then "true" else "false", post);
    case Number(literal) =>
      LiteralBack(literal, post);
    case Str(text) =>
      StrBack(text, post);
    case Arr(items) =>
      ArrayBack(items, post);
    case Obj(fields) =>
      ObjectBack(fields, post);
  }

  lemma WordBack(v: Value, word: string, post: string)
    requires match v case Null => word == "null" case Bool(b) => word == (if b then "true" else "false") case _ => false
    ensures ValueAt(word + post) == Ok(v, post)
  {
  }

  lemma NumberLeads(s: string)
    requires s != [] && (s[0] == '-' || IsDigit(s[0]))
    ensures ValueAt(s) == NumberAt(s)
  {
  }

  lemma LiteralBack(literal: string, post: string)
    requires IsNumber(literal) && Delimited(post)
    ensures ValueAt(Dump(Number(literal)) + post) == Ok(Number(literal), post)
  {
    NumberOf(literal, post);
    assert (literal + post)[0] == literal[0];
    NumberLeads(literal + post);
  }

  lemma StrBack(text: string, post: string)
    ensures ValueAt(Dump(Str(text)) + post) == Ok(Str(text), post)
  {
    QuotedBack(text, post);
    assert Skip(Quoted(text) + post) == Quoted(text) + post;
  }

  lemma ElementStep(first: Value, before: seq<Value>, rest: string)
    requires ValueAt(Dump(first) + rest) == Ok(first, rest)
    ensures ElementAt(Dump(first) + rest, before) == AfterElement(rest, before + [first])
  {
  }

  lemma {:induction false} ArrayBack(items: seq<Value>, post: string)
    requires AllValid(items)
    ensures ValueAt(Dump(Arr(items)) + post) == Ok(Arr(items), post)
    decreases items, 1
  {
    var s := Dump(Arr(items)) + post;
    if items == [] {
      assert s[1..] == "]" + post && s[1..][1..] == post;
    } else {
      var first, rest := items[0], ItemsTail(items[1..]) + post;
      var t := Dump(first) + rest;
      Associate(Dump(first), ItemsTail(items[1..]), post);
      PrefixBack("[", t);
      Associate("[", Dump(first) + ItemsTail(items[1..]), post);
      DumpHead(first);
      assert t[0] == Dump(first)[0];
      TailsDelimit(items[1..], [], post);
      ValueBack(first, rest);
      ElementStep(first, [], rest);
      TailBack(items[1..], [] + [first], post);
      assert [] + [first] + items[1..] == items;
    }
  }

  lemma {:induction false} TailBack(items: seq<Value>, before: seq<Value>, post: string)
    requires AllValid(items)
    ensures AfterElement(ItemsTail(items) + post, before) == Ok(Arr(before + items), post)
    decreases items, 3
  {
    var s := ItemsTail(items) + post;
    if items == [] {
      assert s[1..] == post && before + items == before;
    } else {
      var first, tail := items[0], ItemsTail(items[1..]);
      Associate(Dump(first), tail, post);
      assert s[1..] == Dump(first) + (tail + post);
      TailsDelimit(items[1..], [], post);
      ValueBack(first, tail + post);
      TailBack(items[1..], before + [first], post);
      Associate(before, [first], items[1..]);
      assert [first] + items[1..] == items;
    }
  }

  lemma Opened(t: string)
    requires t != [] && t[0] == '\"'
    ensures ValueAt("{" + t) == MemberAt(t, [])
  {
    var s := "{" + t;
    assert s[0] == '{' && s[1..] == t;
  }

  lemma {:induction false} ObjectBack(fields: seq<Field>, post: string)
    requires DistinctKeys(fields) && AllFieldsValid(fields)
    ensures ValueAt(Dump(Obj(fields)) + post) == Ok(Obj(fields), post)
    decreases fields, 4
  {
    var s := Dump(Obj(fields)) + post;
    if fields == [] {
      assert s[1..] == "}" + post && s[1..][1..] == post;
    } else {
      var tail := FieldsTail(fields[1..]);
      Associate(DumpField(fields[0]), tail, post);
      var t := DumpField(fields[0]) + (tail + post);
      assert s == "{" + t && t[0] == '\"';
      Opened(t);
      MemberBack(fields, [], post);
      assert [] + fields == fields;
    }
  }

  lemma {:induction false} MemberBack(fields: seq<Field>, before: seq<Field>, post: string)
    requires fields != [] && DistinctKeys(before + fields) && AllFieldsValid(fields)
    ensures MemberAt(DumpField(fields[0]) + (FieldsTail(fields[1..]) + post), before) == Ok(Obj(before + fields), post)
    decreases fields, 2
  {
    var f, rest := fields[0], FieldsTail(fields[1..]) + post;
    TailsDelimit([], fields[1..], post);
    ValueBack(f.value, rest);
    NewKey(fields, before);
    MemberStep(f, before, rest);
    FieldsBack(fields[1..], before + [f], post);
  }

  /** One printed field, its value known to read back. */
  lemma MemberStep(f: Field, before: seq<Field>, rest: string)
    requires ValueAt(Dump(f.value) + rest) == Ok(f.value, rest) && !HasKey(before, f.key)
    ensures MemberAt(DumpField(f) + rest, before) == AfterMember(rest, before + [f])
  {
    var s := DumpField(f) + rest;
    var value := Dump(f.value) + rest;
    var afterKey := ":" + value;
    Associate(":", Dump(f.value), rest);
    Associate(Quoted(f.key), ":" + Dump(f.value), rest);
    QuotedBack(f.key, afterKey);
    assert Skip(s) == s;
    assert Skip(afterKey) == afterKey && afterKey[1..] == value;
    assert Field(f.key, f.value) == f;
  }

  lemma NewKey(fields: seq<Field>, before: seq<Field>)
    requires fields != [] && DistinctKeys(before + fields)
    ensures !HasKey(before, fields[0].key)
    ensures before + [fields[0]] + fields[1..] == before + fields
  {
    var all := before + fields;
    assert all[|before|] == fields[0];
    forall i | 0 <= i < |before| ensures before[i].key != fields[0].key {
      assert all[i] == before[i];
    }
    Associate(before, [fields[0]], fields[1..]);
    assert [fields[0]] + fields[1..] == fields;
  }

  lemma {:induction false} FieldsBack(fields: seq<Field>, before: seq<Field>, post: string)
    requires DistinctKeys(before + fields) && AllFieldsValid(fields)
    ensures AfterMember(FieldsTail(fields) + post, before) == Ok(Obj(before + fields), post)
    decreases fields, 3
  {
    var s := FieldsTail(fields) + post;
    if fields == [] {
      assert s[1..] == post && before + fields == before;
    } else {
      var tail := FieldsTail(fields[1..]);
      Associate(DumpField(fields[0]), tail, post);
      assert s[1..] == DumpField(fields[0]) + (tail + post);
      MemberBack(fields, before, post);
    }
  }

  // ---- Everything the parser accepts is well formed ----------------------------------

  lemma {:induction false} AllValidAppend(items: seq<Value>, v: Value)
    requires AllValid(items) && Valid(v)
    ensures AllValid(items + [v])
    decreases items
  {
    if items != [] {
      assert (items + [v])[1..] == items[1..] + [v];
      AllValidAppend(items[1..], v);
    } else {
      assert (items + [v])[1..] == [];
    }
  }

  lemma {:induction false} AllFieldsValidAppend(fields: seq<Field>, f: Field)
    requires AllFieldsValid(fields) && Valid(f.value)
    ensures AllFieldsValid(fields + [f])
    decreases fields
  {
    if fields != [] {
      assert (fields + [f])[1..] == fields[1..] + [f];
      AllFieldsValidAppend(fields[1..], f);
    } else {
      assert (fields + [f])[1..] == [];
    }
  }

  lemma {:induction false} ValueValid(input: string)
    requires ValueAt(input).Ok?
    ensures Valid(ValueAt(input).value)
    decreases |input|, 2
  {
    var s := Skip(input);
    if s[0] == '{' {
      var t := Skip(s[1..]);
      if !At(t, '}') {
        MemberValid(t, []);
      }
    } else if s[0] == '[' {
      var t := Skip(s[1..]);
      if !At(t, ']') {
        ElementValid(t, []);
      }
    } else if s[0] == '-' || IsDigit(s[0]) {
      var literal := NumberTaken(s);
    }
  }

  lemma {:induction false} ElementValid(input: string, items: seq<Value>)
    requires ElementAt(input, items).Ok? && AllValid(items)
    ensures Valid(ElementAt(input, items).value)
    decreases |input|, 3
  {
    var r := ValueAt(input);
    ValueValid(input);
    AllValidAppend(items, r.value);
    var s := Skip(r.rest);
    if s[0] == ',' {
      ElementValid(s[1..], items + [r.value]);
    }
  }

  lemma {:induction false} MemberValid(input: string, fields: seq<Field>)
    requires MemberAt(input, fields).Ok? && DistinctKeys(fields) && AllFieldsValid(fields)
    ensures Valid(MemberAt(input, fields).value)
    decreases |input|, 3
  {
    var key := StringFrom(Skip(input)[1..], []);
    var t := Skip(key.rest);
    var r := ValueAt(t[1..]);
    ValueValid(t[1..]);
    var f := Field(key.value, r.value);
    AllFieldsValidAppend(fields, f);
    assert DistinctKeys(fields + [f]);
    var s := Skip(r.rest);
    if s[0] == ',' {
      MemberValid(s[1..], fields + [f]);
    }
  }

  // ---- The theorems -------------------------------------------------------------------

  /** Whatever the parser accepts has distinct keys and grammatical numbers at every depth. */
  lemma AcceptedIsValid(text: string)
    requires Document(text).Ok?
    ensures Valid(Document(text).value)
  {
    ValueValid(Skip(text));
  }

  /** A value survives printing and parsing exactly when it is well formed. */
  lemma RoundTrip(v: Value)
    ensures Document(Dump(v)) == Ok(v, []) <==> Valid(v)
  {
    if Valid(v) {
      ValueBack(v, []);
      assert Dump(v) + [] == Dump(v);
      DumpHead(v);
    }
    if Document(Dump(v)) == Ok(v, []) {
      AcceptedIsValid(Dump(v));
    }
  }

  /** Printing what was parsed is a canonical form: it parses to the same value. */
  lemma Canonical(text: string)
    requires Document(text).Ok?
    ensures Document(Dump(Document(text).value)) == Document(text)
  {
    AcceptedIsValid(text);
    RoundTrip(Document(text).value);
  }
}
