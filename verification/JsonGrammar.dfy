/**
 The documents of section 2 of RFC 8259 as trees of text: every blank, literal
 and string piece, apart from the parser. The parser accepts exactly the texts
 of well-formed trees, and gives each the value the tree stands for.
 */
module JsonGrammar {
  import opened Sequences
  import opened Json
  import opened JsonNumbers
  import opened JsonRoundTrip
  import opened JsonUnicode

  datatype Tree =
    | NullText
    | BoolText(value: bool)
    | NumberText(literal: string)
    | StringText(pieces: seq<Piece>)
    | EmptyArray(blank: string)
    | Array(slots: seq<Slot>)
    | EmptyObject(blank: string)
    | Object(members: seq<Member>)

  /** A value with the white space around it. */
  datatype Slot = Slot(before: string, tree: Tree, after: string)

  /** A key with the white space around it, and behind a colon its value. */
  datatype Member = Member(before: string, key: seq<Piece>, gap: string, slot: Slot)

  // ---- What a tree looks like ----------------------------------------------------------

  /** The text of a tree, and what follows it. */
  function TreeThen(t: Tree, post: string): string
    decreases t, 2
  {
    match t
    case NullText => "null" + post
    case BoolText(b) => (if b then "true" else "false") + post
    case NumberText(literal) => literal + post
    case StringText(pieces) => "\"" + PiecesThen(pieces, "\"" + post)
    case EmptyArray(blank) => "[" + (blank + ("]" + post))
    case Array(slots) => "[" + SlotsThen(slots, post)
    case EmptyObject(blank) => "{" + (blank + ("}" + post))
    case Object(members) => "{" + MembersThen(members, post)
  }

  /** Values parted by commas, closed by a bracket. */
  function SlotsThen(slots: seq<Slot>, post: string): string
    decreases slots, 3
  {
    if slots == [] then "]" + post
    else slots[0].before + TreeThen(slots[0].tree, slots[0].after + SlotsTail(slots[1..], post))
  }

  function SlotsTail(slots: seq<Slot>, post: string): string
    decreases slots, 4
  {
    if slots == [] then "]" + post else "," + SlotsThen(slots, post)
  }

  /** A key, its colon and what follows. */
  function KeyThen(m: Member, rest: string): string {
    m.before + ("\"" + PiecesThen(m.key, "\"" + (m.gap + (":" + rest))))
  }

  /** Members parted by commas, closed by a brace. */
  function MembersThen(members: seq<Member>, post: string): string
    decreases members, 3
  {
    if members == [] then "}" + post
    else
      var slot := members[0].slot;
      KeyThen(members[0], slot.before + TreeThen(slot.tree, slot.after + MembersTail(members[1..], post)))
  }

  function MembersTail(members: seq<Member>, post: string): string
    decreases members, 4
  {
    if members == [] then "}" + post else "," + MembersThen(members, post)
  }

  // ---- Which trees there are -------------------------------------------------------------

  ghost predicate Blank(s: string) {
    forall i :: 0 <= i < |s| ==> s[i] == ' ' || s[i] == '\t' || s[i] == '\n' || s[i] == '\r'
  }

  ghost predicate WellFormed(t: Tree)
    decreases t, 2
  {
    match t
    case NumberText(literal) => IsNumber(literal)
    case StringText(pieces) => PiecesValid(pieces)
    case EmptyArray(blank) => Blank(blank)
    case Array(slots) => slots != [] && SlotsWell(slots)
    case EmptyObject(blank) => Blank(blank)
    case Object(members) => members != [] && MembersWell(members) && Distinct(KeysOf(members))
    case _ => true
  }

  ghost predicate SlotsWell(slots: seq<Slot>)
    decreases slots, 4
  {
    slots != [] ==>
      Blank(slots[0].before) && WellFormed(slots[0].tree) && Blank(slots[0].after) && SlotsWell(slots[1..])
  }

  ghost predicate KeyWell(m: Member) {
    Blank(m.before) && PiecesValid(m.key) && Blank(m.gap) && Blank(m.slot.before) && Blank(m.slot.after)
  }

  ghost predicate MembersWell(members: seq<Member>)
    decreases members, 5
  {
    members != [] ==> KeyWell(members[0]) && WellFormed(members[0].slot.tree) && MembersWell(members[1..])
  }

  ghost function KeysOf(members: seq<Member>): seq<string>
    requires MembersWell(members)
    decreases members, 6
  {
    if members == [] then [] else [PiecesMeaning(members[0].key)] + KeysOf(members[1..])
  }

  // ---- What a tree stands for --------------------------------------------------------------

  ghost function Meaning(t: Tree): Value
    requires WellFormed(t)
  {
    match t
    case NullText => Null
    case BoolText(b) => Bool(b)
    case NumberText(literal) => Number(literal)
    case StringText(pieces) => Str(PiecesMeaning(pieces))
    case EmptyArray(_) => Arr([])
    case Array(slots) => Arr(Values(slots))
    case EmptyObject(_) => Obj([])
    case Object(members) => Obj(Fields(members))
  }

  ghost function Values(slots: seq<Slot>): seq<Value>
    requires SlotsWell(slots)
  {
    if slots == [] then [] else [Meaning(slots[0].tree)] + Values(slots[1..])
  }

  ghost function Fields(members: seq<Member>): seq<Field>
    requires MembersWell(members)
  {
    if members == [] then []
    else [Field(PiecesMeaning(members[0].key), Meaning(members[0].slot.tree))] + Fields(members[1..])
  }

  /** The text is that of a tree with blanks around it, and the tree stands for the value. */
  ghost predicate IsDocument(text: string, before: string, t: Tree, after: string, v: Value) {
    Blank(before) && Blank(after) && WellFormed(t) && text == before + TreeThen(t, after) && Meaning(t) == v
  }

  // ---- Blanks --------------------------------------------------------------------------------

  lemma {:induction false} SkipBlank(blank: string, s: string)
    requires Blank(blank) && (s == [] || !IsSpace(s[0]))
    ensures Skip(blank + s) == s
  {
    if blank == [] {
      assert blank + s == s;
    } else {
      assert (blank + s)[1..] == blank[1..] + s;
      SkipBlank(blank[1..], s);
    }
  }

  lemma {:induction false} BlankTaken(s: string) returns (blank: string)
    ensures Blank(blank) && s == blank + Skip(s)
  {
    blank := [];
    if s != [] && IsSpace(s[0]) {
      blank := BlankTaken(s[1..]);
      Associate([s[0]], blank, Skip(s));
      blank := [s[0]] + blank;
    }
  }

  lemma BlankDelimits(blank: string, s: string)
    requires Blank(blank) && Delimited(s)
    ensures Delimited(blank + s)
  {
  }

  lemma ValueAfterBlank(blank: string, s: string)
    requires Blank(blank) && s != [] && !IsSpace(s[0])
    ensures ValueAt(blank + s) == ValueAt(s)
  {
    SkipBlank(blank, s);
    SkipBlank([], s);
    assert [] + s == s;
  }

  // ---- Every well-formed text is accepted ------------------------------------------------------

  lemma TreeHead(t: Tree, post: string)
    requires WellFormed(t)
    ensures var s := TreeThen(t, post); s != [] && !IsSpace(s[0]) && s[0] != ']' && s[0] != '}'
  {
    if t.NumberText? {
      NumberOf(t.literal, []);
    }
  }

  lemma {:induction false} TreeReads(t: Tree, post: string)
    requires WellFormed(t) && Delimited(post)
    ensures ValueAt(TreeThen(t, post)) == Ok(Meaning(t), post)
    decreases t, 2
  {
    match t
    case NullText => WordBack(Null, "null", post);
    case BoolText(b) => WordBack(Bool(b), if b then "true" else "false", post);
    case NumberText(literal) => LiteralReads(literal, post);
    case StringText(pieces) => StringReads(pieces, post);
    case EmptyArray(blank) => SkipBlank(blank, "]" + post);
    case Array(slots) => ArrayReads(slots, post);
    case EmptyObject(blank) => SkipBlank(blank, "}" + post);
    case Object(members) => ObjectReads(members, post);
  }

  lemma LiteralReads(literal: string, post: string)
    requires IsNumber(literal) && Delimited(post)
    ensures ValueAt(literal + post) == Ok(Number(literal), post)
  {
    NumberOf(literal, []);
    LiteralBack(literal, post);
  }

  lemma StringReads(pieces: seq<Piece>, post: string)
    requires PiecesValid(pieces)
    ensures ValueAt("\"" + PiecesThen(pieces, "\"" + post)) == Ok(Str(PiecesMeaning(pieces)), post)
  {
    var s := "\"" + PiecesThen(pieces, "\"" + post);
    assert s[1..] == PiecesThen(pieces, "\"" + post);
    PiecesRead(pieces, [], post);
    assert [] + PiecesMeaning(pieces) == PiecesMeaning(pieces);
    SkipBlank([], s);
  }

  lemma SkipTwice(s: string)
    ensures Skip(Skip(s)) == Skip(s) && ValueAt(Skip(s)) == ValueAt(s)
  {
    var t := Skip(s);
    SkipBlank([], t);
    assert [] + t == t;
  }

  lemma ElementSkips(s: string)
    ensures ElementAt(Skip(s), []) == ElementAt(s, [])
  {
    SkipTwice(s);
  }

  lemma TailHead(slots: seq<Slot>, members: seq<Member>, post: string)
    ensures var s := SlotsTail(slots, post); s != [] && (s[0] == ',' || s[0] == ']')
    ensures var s := MembersTail(members, post); s != [] && (s[0] == ',' || s[0] == '}')
  {
  }

  /** One value, and what follows it. */
  lemma {:induction false} SlotReads(before: string, t: Tree, after: string, tail: string)
    requires Blank(before) && WellFormed(t) && Blank(after)
    requires tail != [] && (tail[0] == ',' || tail[0] == ']' || tail[0] == '}')
    ensures ValueAt(before + TreeThen(t, after + tail)) == Ok(Meaning(t), after + tail)
    ensures Skip(after + tail) == tail
    decreases t, 3
  {
    TreeHead(t, after + tail);
    ValueAfterBlank(before, TreeThen(t, after + tail));
    BlankDelimits(after, tail);
    TreeReads(t, after + tail);
    SkipBlank(after, tail);
  }

  lemma ArrayOpens(s: string)
    requires Skip(s) != [] && Skip(s)[0] != ']'
    ensures ValueAt("[" + s) == ElementAt(s, [])
  {
    var all := "[" + s;
    SkipBlank([], all);
    assert [] + all == all && all[1..] == s;
    ElementSkips(s);
  }

  lemma {:induction false} ArrayReads(slots: seq<Slot>, post: string)
    requires slots != [] && SlotsWell(slots)
    ensures ValueAt("[" + SlotsThen(slots, post)) == Ok(Arr(Values(slots)), post)
    decreases slots, 6
  {
    var first := slots[0];
    var rest := first.after + SlotsTail(slots[1..], post);
    TreeHead(first.tree, rest);
    SkipBlank(first.before, TreeThen(first.tree, rest));
    ArrayOpens(SlotsThen(slots, post));
    SlotsRead(slots, [], post);
    assert [] + Values(slots) == Values(slots);
  }

  lemma {:induction false} SlotsRead(slots: seq<Slot>, read: seq<Value>, post: string)
    requires slots != [] && SlotsWell(slots)
    ensures ElementAt(SlotsThen(slots, post), read) == Ok(Arr(read + Values(slots)), post)
    decreases slots, 5
  {
    var value, tail := Meaning(slots[0].tree), SlotsTail(slots[1..], post);
    TailHead(slots[1..], [], post);
    SlotReads(slots[0].before, slots[0].tree, slots[0].after, tail);
    Associate(read, [value], Values(slots[1..]));
    if |slots| == 1 {
      assert tail[1..] == post;
      assert read + [value] + [] == read + [value];
    } else {
      assert tail[1..] == SlotsThen(slots[1..], post);
      SlotsRead(slots[1..], read + [value], post);
    }
  }

  lemma ObjectOpens(s: string)
    requires At(Skip(s), '\"')
    ensures ValueAt("{" + s) == MemberAt(s, [])
  {
    var all := "{" + s;
    SkipBlank([], all);
    assert [] + all == all && all[1..] == s;
    SkipTwice(s);
  }

  lemma {:induction false} ObjectReads(members: seq<Member>, post: string)
    requires members != [] && MembersWell(members) && Distinct(KeysOf(members))
    ensures ValueAt("{" + MembersThen(members, post)) == Ok(Obj(Fields(members)), post)
    decreases members, 6
  {
    var slot := members[0].slot;
    KeyReads(members[0], slot.before + TreeThen(slot.tree, slot.after + MembersTail(members[1..], post)));
    ObjectOpens(MembersThen(members, post));
    MembersRead(members, [], post);
    assert [] + Fields(members) == Fields(members);
  }

  /** A member up to its colon. */
  lemma KeyReads(m: Member, rest: string)
    requires KeyWell(m)
    ensures var s := Skip(KeyThen(m, rest));
            At(s, '\"') && StringFrom(s[1..], []) == Ok(PiecesMeaning(m.key), m.gap + (":" + rest))
    ensures Skip(m.gap + (":" + rest)) == ":" + rest && (":" + rest)[1..] == rest
  {
    var after := m.gap + (":" + rest);
    var t := "\"" + PiecesThen(m.key, "\"" + after);
    SkipBlank(m.before, t);
    assert t[1..] == PiecesThen(m.key, "\"" + after);
    PiecesRead(m.key, [], after);
    assert [] + PiecesMeaning(m.key) == PiecesMeaning(m.key);
    SkipBlank(m.gap, ":" + rest);
  }

  /** A member whose value is known to read back. */
  lemma MemberReads(m: Member, rest: string, value: Value, after: string, read: seq<Field>)
    requires KeyWell(m) && ValueAt(rest) == Ok(value, after) && !HasKey(read, PiecesMeaning(m.key))
    ensures MemberAt(KeyThen(m, rest), read) == AfterMember(after, read + [Field(PiecesMeaning(m.key), value)])
  {
    KeyReads(m, rest);
  }

  /** No key of the fields read so far is among those to come, and those are distinct. */
  ghost predicate AllDistinct(read: seq<Field>, keys: seq<string>) {
    Distinct(keys) && forall i, j :: 0 <= i < |read| && 0 <= j < |keys| ==> read[i].key != keys[j]
  }

  lemma NextDistinct(read: seq<Field>, key: string, keys: seq<string>, value: Value)
    requires AllDistinct(read, [key] + keys)
    ensures !HasKey(read, key) && AllDistinct(read + [Field(key, value)], keys)
  {
    var all := [key] + keys;
    assert all[0] == key && forall j :: 0 <= j < |keys| ==> all[j + 1] == keys[j];
  }

  lemma {:induction false} MembersRead(members: seq<Member>, read: seq<Field>, post: string)
    requires members != [] && MembersWell(members) && AllDistinct(read, KeysOf(members))
    ensures MemberAt(MembersThen(members, post), read) == Ok(Obj(read + Fields(members)), post)
    decreases members, 5
  {
    var m, tail := members[0], MembersTail(members[1..], post);
    var key, value := PiecesMeaning(m.key), Meaning(m.slot.tree);
    var f := Field(key, value);
    TailHead([], members[1..], post);
    SlotReads(m.slot.before, m.slot.tree, m.slot.after, tail);
    NextDistinct(read, key, KeysOf(members[1..]), value);
    MemberReads(m, m.slot.before + TreeThen(m.slot.tree, m.slot.after + tail), value, m.slot.after + tail, read);
    Associate(read, [f], Fields(members[1..]));
    if |members| == 1 {
      assert tail[1..] == post;
      assert read + [f] + [] == read + [f];
    } else {
      assert tail[1..] == MembersThen(members[1..], post);
      MembersRead(members[1..], read + [f], post);
    }
  }

  // ---- Every accepted text is well formed ----------------------------------------------------

  lemma {:induction false} ValueTaken(s: string) returns (before: string, t: Tree)
    requires ValueAt(s).Ok?
    ensures Blank(before) && WellFormed(t)
    ensures s == before + TreeThen(t, ValueAt(s).rest) && Meaning(t) == ValueAt(s).value
    decreases |s|, 4
  {
    before := BlankTaken(s);
    var u := Skip(s);
    SkipTwice(s);
    if u[0] == '{' {
      t := ObjectTaken(u);
    } else if u[0] == '[' {
      t := ArrayTaken(u);
    } else if u[0] == '\"' {
      t := StringTaken(u);
    } else if u[0] == '-' || IsDigit(u[0]) {
      var literal := NumberTaken(u);
      t := NumberText(literal);
    } else {
      t := WordTaken(u);
    }
  }

  lemma WordTaken(s: string) returns (t: Tree)
    requires ValueAt(s).Ok? && s != [] && s[0] in "tfn"
    ensures WellFormed(t) && s == TreeThen(t, ValueAt(s).rest) && Meaning(t) == ValueAt(s).value
  {
    assert Skip(s) == s;
    if s[0] == 'n' {
      t := NullText;
      assert s == "null" + s[4..];
    } else if "true" <= s {
      t := BoolText(true);
      assert s == "true" + s[4..];
    } else {
      t := BoolText(false);
      assert s == "false" + s[5..];
    }
  }

  lemma StringTaken(s: string) returns (t: Tree)
    requires At(s, '\"') && StringAt(s).Ok?
    ensures WellFormed(t) && s == TreeThen(t, StringAt(s).rest) && Meaning(t) == StringAt(s).value
  {
    var pieces := PiecesTaken(s[1..], []);
    t := StringText(pieces);
    assert s == "\"" + s[1..];
    assert [] + PiecesMeaning(pieces) == PiecesMeaning(pieces);
  }

  lemma {:induction false} ArrayTaken(s: string) returns (t: Tree)
    requires At(s, '[') && ValueAt(s).Ok?
    ensures WellFormed(t) && s == TreeThen(t, ValueAt(s).rest) && Meaning(t) == ValueAt(s).value
    decreases |s|, 0
  {
    var u := Skip(s[1..]);
    assert s == "[" + s[1..];
    if At(u, ']') {
      var blank := BlankTaken(s[1..]);
      t := EmptyArray(blank);
      assert u == "]" + u[1..];
    } else {
      ElementSkips(s[1..]);
      var slots := ElementTaken(s[1..], []);
      t := Array(slots);
      assert [] + Values(slots) == Values(slots);
    }
  }

  lemma {:induction false} ElementTaken(s: string, read: seq<Value>) returns (slots: seq<Slot>)
    requires ElementAt(s, read).Ok?
    ensures slots != [] && SlotsWell(slots) && s == SlotsThen(slots, ElementAt(s, read).rest)
    ensures ElementAt(s, read).value == Arr(read + Values(slots))
    decreases |s|, 5
  {
    var before, t := ValueTaken(s);
    var value, rest := ValueAt(s).value, ValueAt(s).rest;
    var after := BlankTaken(rest);
    var u := Skip(rest);
    var more: seq<Slot> := [];
    if u[0] == ',' {
      more := ElementTaken(u[1..], read + [value]);
      assert u == "," + u[1..];
    } else {
      assert u == "]" + u[1..];
      assert read + [value] + [] == read + [value];
    }
    slots := [Slot(before, t, after)] + more;
    assert slots[1..] == more;
    Associate(read, [value], Values(more));
  }

  lemma {:induction false} ObjectTaken(s: string) returns (t: Tree)
    requires At(s, '{') && ValueAt(s).Ok?
    ensures WellFormed(t) && s == TreeThen(t, ValueAt(s).rest) && Meaning(t) == ValueAt(s).value
    decreases |s|, 0
  {
    var u := Skip(s[1..]);
    assert s == "{" + s[1..];
    if At(u, '}') {
      var blank := BlankTaken(s[1..]);
      t := EmptyObject(blank);
      assert u == "}" + u[1..];
    } else {
      SkipTwice(s[1..]);
      var members := MembersTaken(s[1..], []);
      t := Object(members);
      assert [] + Fields(members) == Fields(members);
    }
  }

  lemma KeyTaken(s: string) returns (before: string, key: seq<Piece>, gap: string)
    requires At(Skip(s), '\"') && StringFrom(Skip(s)[1..], []).Ok?
    requires At(Skip(StringFrom(Skip(s)[1..], []).rest), ':')
    ensures var afterKey := StringFrom(Skip(s)[1..], []);
            && Blank(before) && PiecesValid(key) && Blank(gap) && PiecesMeaning(key) == afterKey.value
            && s == before + ("\"" + PiecesThen(key, "\"" + (gap + (":" + Skip(afterKey.rest)[1..]))))
  {
    var u := Skip(s);
    var afterKey := StringFrom(u[1..], []);
    before := BlankTaken(s);
    key := PiecesTaken(u[1..], []);
    gap := BlankTaken(afterKey.rest);
    var c := Skip(afterKey.rest);
    assert u == "\"" + u[1..] && c == ":" + c[1..];
    assert [] + PiecesMeaning(key) == PiecesMeaning(key);
  }

  /** What the parser has done up to the comma or brace behind a member. */
  lemma MemberDone(s: string, read: seq<Field>) returns (v: string, f: Field, u: string)
    requires MemberAt(s, read).Ok?
    ensures At(Skip(s), '\"') && StringFrom(Skip(s)[1..], []).Ok? && At(Skip(StringFrom(Skip(s)[1..], []).rest), ':')
    ensures v == Skip(StringFrom(Skip(s)[1..], []).rest)[1..] && |v| < |s| && ValueAt(v).Ok?
    ensures f == Field(StringFrom(Skip(s)[1..], []).value, ValueAt(v).value) && !HasKey(read, f.key)
    ensures u == Skip(ValueAt(v).rest) && |u| < |v| && (At(u, ',') || At(u, '}'))
    ensures MemberAt(s, read) == if u[0] == ',' then MemberAt(u[1..], read + [f]) else Ok(Obj(read + [f]), u[1..])
  {
    var key := StringFrom(Skip(s)[1..], []);
    v := Skip(key.rest)[1..];
    f := Field(key.value, ValueAt(v).value);
    u := Skip(ValueAt(v).rest);
  }

  lemma {:induction false} MembersTaken(s: string, read: seq<Field>) returns (members: seq<Member>)
    requires MemberAt(s, read).Ok?
    ensures members != [] && MembersWell(members) && s == MembersThen(members, MemberAt(s, read).rest)
    ensures MemberAt(s, read).value == Obj(read + Fields(members)) && AllDistinct(read, KeysOf(members))
    decreases |s|, 5
  {
    var post := MemberAt(s, read).rest;
    var v, f, u := MemberDone(s, read);
    var before, key, gap := KeyTaken(s);
    var inner, t := ValueTaken(v);
    var after := BlankTaken(ValueAt(v).rest);
    var more: seq<Member> := [];
    if u[0] == ',' {
      more := MembersTaken(u[1..], read + [f]);
      assert u == "," + u[1..];
      PriorDistinct(read, f, KeysOf(more));
    } else {
      assert u == "}" + u[1..];
      assert read + [f] + [] == read + [f];
    }
    var m := Member(before, key, gap, Slot(inner, t, after));
    members := [m] + more;
    Associate(read, [f], Fields(more));
    FirstMember(m, more, u, post);
  }

  lemma FirstMember(m: Member, more: seq<Member>, tail: string, post: string)
    requires KeyWell(m) && WellFormed(m.slot.tree) && MembersWell(more) && tail == MembersTail(more, post)
    ensures var all := [m] + more;
            && MembersWell(all) && KeysOf(all) == [PiecesMeaning(m.key)] + KeysOf(more)
            && Fields(all) == [Field(PiecesMeaning(m.key), Meaning(m.slot.tree))] + Fields(more)
            && MembersThen(all, post) == KeyThen(m, m.slot.before + TreeThen(m.slot.tree, m.slot.after + tail))
  {
    assert ([m] + more)[1..] == more;
  }

  lemma PriorDistinct(read: seq<Field>, f: Field, keys: seq<string>)
    requires !HasKey(read, f.key) && AllDistinct(read + [f], keys)
    ensures AllDistinct(read, [f.key] + keys)
  {
    var all := [f.key] + keys;
    forall j | 0 <= j < |keys| ensures keys[j] != f.key {
      assert (read + [f])[|read|] == f;
    }
    forall i, j | 0 <= i < |read| && 0 <= j < |keys| ensures read[i].key != keys[j] {
      assert (read + [f])[i] == read[i];
    }
  }

  // ---- The theorem -----------------------------------------------------------------------------

  /** The parser accepts a text with a value exactly when it is the text of a well-formed tree of that value. */
  lemma AcceptedIff(text: string, v: Value)
    ensures Document(text) == Ok(v, []) <==> exists before, t, after :: IsDocument(text, before, t, after, v)
  {
    SkipTwice(text);
    if Document(text) == Ok(v, []) {
      var before, t := ValueTaken(text);
      var after := BlankTaken(ValueAt(text).rest);
      assert after + [] == after;
      assert IsDocument(text, before, t, after, v);
    }
    if before, t, after :| IsDocument(text, before, t, after, v) {
      TreeHead(t, after);
      ValueAfterBlank(before, TreeThen(t, after));
      BlankDelimits(after, []);
      assert after + [] == after;
      TreeReads(t, after);
      SkipBlank(after, []);
    }
  }

  // ---- What the printer writes -----------------------------------------------------------------

  /** A character as the printer writes it. */
  function PieceOf(c: char): Piece {
    if c == '\"' || c == '\\' then Short(c)
    else if c == '\n' then Short('n')
    else if c == '\r' then Short('r')
    else if c == '\t' then Short('t')
    else if c as int == 8 then Short('b')
    else if c as int == 12 then Short('f')
    else if c as int < 0x20 then One(UnitOf(c as int))
    else Plain(c)
  }

  /** No escape but for a quote, a backslash or a control character, the two-character one where there is one, else in lower case. */
  ghost predicate IsNeeded(p: Piece) {
    match p
    case Plain(_) => true
    case Short(letter) => letter != '/'
    case One(u) =>
      && u.Value() < 0x20 && u.Value() !in {8, 9, 10, 12, 13}
      && !u.a.upper && !u.b.upper && !u.c.upper && !u.d.upper
    case Pair(_, _) => false
  }

  lemma ControlPiece(c: char)
    requires c as int < 0x20 && PieceOf(c).One?
    ensures var p := One(UnitOf(c as int));
            PieceOf(c) == p && p.Valid() && IsNeeded(p) && p.Meaning() == [c] && p.Text() == EscapedChar(c)
  {
    var n := c as int;
    var u := UnitOf(n);
    assert u.a.value == 0 && u.b.value == 0 && u.c.value == n / 16 && u.d.value == n % 16;
    ControlDigits(u.c);
    ControlDigits(u.d);
    assert u.a.Text() == '0' && u.b.Text() == '0';
    assert One(u).Text() == "\\u00" + [HexDigit(n / 16), HexDigit(n % 16)];
  }

  lemma ControlDigits(h: Hex)
    requires !h.upper
    ensures h.Text() == HexDigit(h.value)
  {
  }

  lemma PieceOfIs(c: char)
    ensures PieceOf(c).Valid() && IsNeeded(PieceOf(c)) && PieceOf(c).Meaning() == [c] && PieceOf(c).Text() == EscapedChar(c)
  {
    if PieceOf(c).One? {
      ControlPiece(c);
    }
  }

  ghost predicate AreNeeded(ps: seq<Piece>) {
    forall i :: 0 <= i < |ps| ==> ps[i].Valid() && IsNeeded(ps[i])
  }

  function PiecesOf(text: string): seq<Piece> {
    if text == [] then [] else [PieceOf(text[0])] + PiecesOf(text[1..])
  }

  lemma OneMorePiece(p: Piece, c: char, ps: seq<Piece>, text: string, post: string)
    requires p.Valid() && IsNeeded(p) && p.Meaning() == [c] && p.Text() == EscapedChar(c)
    requires AreNeeded(ps) && PiecesMeaning(ps) == text && PiecesThen(ps, post) == Escaped(text) + post
    ensures var all := [p] + ps;
            AreNeeded(all) && PiecesMeaning(all) == [c] + text && PiecesThen(all, post) == Escaped([c] + text) + post
  {
    var all := [p] + ps;
    assert all[1..] == ps && ([c] + text)[1..] == text;
    Associate(EscapedChar(c), Escaped(text), post);
  }

  lemma {:induction false} PiecesOfIs(text: string, post: string)
    ensures AreNeeded(PiecesOf(text)) && PiecesMeaning(PiecesOf(text)) == text
    ensures PiecesThen(PiecesOf(text), post) == Escaped(text) + post
  {
    if text == [] {
      assert [] + post == post;
    } else {
      PieceOfIs(text[0]);
      PiecesOfIs(text[1..], post);
      OneMorePiece(PieceOf(text[0]), text[0], PiecesOf(text[1..]), text[1..], post);
      assert [text[0]] + text[1..] == text;
    }
  }

  /** No blank anywhere and no escape that is not needed. */
  ghost predicate IsCompact(t: Tree)
    decreases t, 2
  {
    match t
    case StringText(pieces) => AreNeeded(pieces)
    case EmptyArray(blank) => blank == []
    case Array(slots) => SlotsCompact(slots)
    case EmptyObject(blank) => blank == []
    case Object(members) => MembersCompact(members)
    case _ => true
  }

  ghost predicate SlotsCompact(slots: seq<Slot>)
    decreases slots, 4
  {
    slots != [] ==>
      slots[0].before == [] && IsCompact(slots[0].tree) && slots[0].after == [] && SlotsCompact(slots[1..])
  }

  ghost predicate MembersCompact(members: seq<Member>)
    decreases members, 5
  {
    members != [] ==>
      && members[0].before == [] && AreNeeded(members[0].key) && members[0].gap == []
      && members[0].slot.before == [] && IsCompact(members[0].slot.tree) && members[0].slot.after == []
      && MembersCompact(members[1..])
  }

  function Compact(v: Value): Tree
    decreases v, 1
  {
    match v
    case Null => NullText
    case Bool(b) => BoolText(b)
    case Number(literal) => NumberText(literal)
    case Str(text) => StringText(PiecesOf(text))
    case Arr(items) => if items == [] then EmptyArray([]) else Array(CompactSlots(items))
    case Obj(fields) => if fields == [] then EmptyObject([]) else Object(CompactMembers(fields))
  }

  function CompactSlots(items: seq<Value>): seq<Slot>
    decreases items, 0
  {
    if items == [] then [] else [Slot([], Compact(items[0]), [])] + CompactSlots(items[1..])
  }

  function CompactMembers(fields: seq<Field>): seq<Member>
    decreases fields, 0
  {
    if fields == [] then []
    else
      var f := fields[0];
      [Member([], PiecesOf(f.key), [], Slot([], Compact(f.value), []))] + CompactMembers(fields[1..])
  }

  /** The tree is compact, stands for the value, and its text with what follows is the one given. */
  ghost predicate Prints(t: Tree, v: Value, post: string, text: string) {
    WellFormed(t) && IsCompact(t) && Meaning(t) == v && TreeThen(t, post) == text
  }

  lemma StringPrints(text: string, post: string)
    ensures Prints(StringText(PiecesOf(text)), Str(text), post, Quoted(text) + post)
  {
    var e := Escaped(text);
    PiecesOfIs(text, "\"" + post);
    QuotedThen(e, post);
  }

  lemma QuotedThen(e: string, post: string)
    ensures ("\"" + e + "\"") + post == "\"" + (e + ("\"" + post))
  {
  }

  /** The printed text of a well-formed value is that of its tree without blanks and needless escapes. */
  lemma {:induction false} DumpIsCompact(v: Value, post: string)
    requires Valid(v)
    ensures Prints(Compact(v), v, post, Dump(v) + post)
    decreases v, 2
  {
    match v
    case Null =>
    case Bool(b) =>
    case Number(literal) =>
      NumberOf(literal, []);
    case Str(text) =>
      StringPrints(text, post);
    case Arr(items) =>
      ArrayPrints(items, post);
    case Obj(fields) =>
      ObjectPrints(fields, post);
  }

  lemma {:induction false} ArrayPrints(items: seq<Value>, post: string)
    requires AllValid(items)
    ensures Prints(Compact(Arr(items)), Arr(items), post, Dump(Arr(items)) + post)
    decreases items, 4
  {
    if items == [] {
      assert "[]" + post == "[" + ([] + ("]" + post));
    } else {
      SlotsAreCompact(items, post);
      Associate("[", Dump(items[0]) + ItemsTail(items[1..]), post);
      Associate(Dump(items[0]), ItemsTail(items[1..]), post);
    }
  }

  lemma {:induction false} ObjectPrints(fields: seq<Field>, post: string)
    requires DistinctKeys(fields) && AllFieldsValid(fields)
    ensures Prints(Compact(Obj(fields)), Obj(fields), post, Dump(Obj(fields)) + post)
    decreases fields, 4
  {
    if fields == [] {
      assert "{}" + post == "{" + ([] + ("}" + post));
    } else {
      MembersAreCompact(fields, post);
      KeysAreDistinct(fields);
      Associate("{", DumpField(fields[0]) + FieldsTail(fields[1..]), post);
      Associate(DumpField(fields[0]), FieldsTail(fields[1..]), post);
    }
  }

  ghost predicate SlotsPrint(slots: seq<Slot>, items: seq<Value>, post: string, text: string) {
    SlotsWell(slots) && SlotsCompact(slots) && Values(slots) == items && SlotsThen(slots, post) == text
  }

  lemma FirstSlotPrints(t: Tree, v: Value, slots: seq<Slot>, items: seq<Value>, tail: string, post: string, text: string)
    requires Prints(t, v, [] + tail, text) && tail == SlotsTail(slots, post)
    requires SlotsWell(slots) && SlotsCompact(slots) && Values(slots) == items
    ensures SlotsPrint([Slot([], t, [])] + slots, [v] + items, post, text)
  {
    var all := [Slot([], t, [])] + slots;
    assert all[1..] == slots && [] + text == text;
  }

  lemma {:induction false} SlotsAreCompact(items: seq<Value>, post: string)
    requires items != [] && AllValid(items)
    ensures SlotsPrint(CompactSlots(items), items, post, Dump(items[0]) + (ItemsTail(items[1..]) + post))
    decreases items, 3
  {
    var rest := CompactSlots(items[1..]);
    var tail := SlotsTail(rest, post);
    if |items| > 1 {
      SlotsAreCompact(items[1..], post);
      assert items[1..][1..] == items[2..];
      Associate(",", Dump(items[1]) + ItemsTail(items[2..]), post);
      Associate(Dump(items[1]), ItemsTail(items[2..]), post);
    }
    assert tail == ItemsTail(items[1..]) + post && [] + tail == tail;
    DumpIsCompact(items[0], [] + tail);
    FirstSlotPrints(Compact(items[0]), items[0], rest, items[1..], tail, post, Dump(items[0]) + tail);
    assert [items[0]] + items[1..] == items;
  }

  ghost predicate MembersPrint(members: seq<Member>, fields: seq<Field>, post: string, text: string) {
    MembersWell(members) && MembersCompact(members) && Fields(members) == fields && MembersThen(members, post) == text
  }

  lemma {:induction false} MembersAreCompact(fields: seq<Field>, post: string)
    requires fields != [] && AllFieldsValid(fields)
    ensures MembersPrint(CompactMembers(fields), fields, post, DumpField(fields[0]) + (FieldsTail(fields[1..]) + post))
    decreases fields, 3
  {
    var tail := MembersTail(CompactMembers(fields[1..]), post);
    var f := fields[0];
    assert CompactMembers(fields)[1..] == CompactMembers(fields[1..]);
    if |fields| > 1 {
      MembersAreCompact(fields[1..], post);
      assert fields[1..][1..] == fields[2..];
      Associate(",", DumpField(fields[1]) + FieldsTail(fields[2..]), post);
      Associate(DumpField(fields[1]), FieldsTail(fields[2..]), post);
    }
    assert tail == FieldsTail(fields[1..]) + post;
    DumpIsCompact(f.value, [] + tail);
    FirstMemberPrints(f, fields[1..], tail, post);
    assert [f] + fields[1..] == fields;
  }

  lemma FirstMemberPrints(f: Field, rest: seq<Field>, tail: string, post: string)
    requires Prints(Compact(f.value), f.value, [] + tail, Dump(f.value) + ([] + tail))
    requires tail == MembersTail(CompactMembers(rest), post)
    requires MembersWell(CompactMembers(rest)) && MembersCompact(CompactMembers(rest)) && Fields(CompactMembers(rest)) == rest
    ensures MembersPrint([MemberOf(f)] + CompactMembers(rest), [f] + rest, post, DumpField(f) + tail)
  {
    var members := [MemberOf(f)] + CompactMembers(rest);
    assert [] + tail == tail && members[1..] == CompactMembers(rest);
    KeyIsCompact(f.key, Dump(f.value) + tail, f.value);
    Associate(":", Dump(f.value), tail);
    Associate(Quoted(f.key), ":" + Dump(f.value), tail);
    assert [] + (Dump(f.value) + tail) == Dump(f.value) + tail;
  }

  function MemberOf(f: Field): Member {
    Member([], PiecesOf(f.key), [], Slot([], Compact(f.value), []))
  }

  lemma KeyIsCompact(key: string, rest: string, value: Value)
    ensures var m := MemberOf(Field(key, value));
            KeyWell(m) && AreNeeded(m.key) && PiecesMeaning(m.key) == key && KeyThen(m, rest) == Quoted(key) + (":" + rest)
  {
    var after := ":" + rest;
    assert [] + after == after;
    PiecesOfIs(key, "\"" + after);
    QuotedThen(Escaped(key), after);
    var all := "\"" + (Escaped(key) + ("\"" + after));
    assert [] + all == all;
  }

  lemma {:induction false} KeysAreDistinct(fields: seq<Field>)
    requires AllFieldsValid(fields) && MembersWell(CompactMembers(fields))
    ensures |KeysOf(CompactMembers(fields))| == |fields|
    ensures forall i :: 0 <= i < |fields| ==> KeysOf(CompactMembers(fields))[i] == fields[i].key
  {
    if fields != [] {
      PiecesOfIs(fields[0].key, []);
      assert CompactMembers(fields)[1..] == CompactMembers(fields[1..]);
      KeysAreDistinct(fields[1..]);
    }
  }
}
