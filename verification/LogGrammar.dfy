/**
 Edit logs as they may be written by hand: the tokens of a log with any blanks
 before each of them. Reading accepts exactly these texts, and gives the two
 stacks whose operations they hold.
 */
module LogGrammar {
  import opened Sequences
  import opened Options
  import opened EditHistory
  import opened BalancedText
  import opened LogText

  /** An entry's two objects, the blanks before its five tokens, and those before the comma or bracket behind it. */
  datatype Item = Item(opening: string, beforeOp: string, op: string, middle: string, beforeInverse: string, inverse: string,
                       closing: string, after: string)

  /** A bracketed list; the inner blanks are those of an empty one. */
  datatype List = List(before: string, inner: string, items: seq<Item>)

  /** A log: its header, the two lists with the key between them, and its end. */
  datatype Shape = Shape(before: string, applied: List, middle: string, undone: List, closing: string, after: string)

  // ---- What a shape looks like ---------------------------------------------------------------

  function ItemThen(i: Item, post: string): string {
    i.opening + (OPENING + (i.beforeOp + (i.op + (i.middle + (MIDDLE + (i.beforeInverse + (i.inverse +
      (i.closing + ("}" + (i.after + post))))))))))
  }

  /** The items, parted by commas and closed by a bracket. */
  function ItemsThen(items: seq<Item>, post: string): string {
    if items == [] then "]" + post
    else ItemThen(items[0], if |items| == 1 then "]" + post else "," + ItemsThen(items[1..], post))
  }

  function ListThen(l: List, post: string): string {
    l.before + ("[" + (if l.items == [] then l.inner + ("]" + post) else ItemsThen(l.items, post)))
  }

  function ShapeText(kind: Kind, s: Shape): string {
    s.before + (Header(kind) + ListThen(s.applied, s.middle + (UNDONE + ListThen(s.undone, s.closing + ("}" + s.after)))))
  }

  // ---- Which shapes there are, and what they stand for ----------------------------------------

  ghost predicate Blank(s: string) {
    forall i :: 0 <= i < |s| ==> IsSpace(s[i])
  }

  /** Two balanced objects, each of which is read as an operation. */
  ghost predicate ItemIs<O(!new)>(c: Codec<O>, i: Item, e: Entry<O>) {
    && Blank(i.opening) && Blank(i.beforeOp) && Blank(i.middle) && Blank(i.beforeInverse) && Blank(i.closing) && Blank(i.after)
    && IsObject(i.op) && IsObject(i.inverse)
    && c.Read(i.op) == Some(e.op) && c.Read(i.inverse) == Some(e.inverse)
  }

  ghost predicate ItemsAre<O(!new)>(c: Codec<O>, items: seq<Item>, entries: seq<Entry<O>>) {
    |items| == |entries| && forall k :: 0 <= k < |items| ==> ItemIs(c, items[k], entries[k])
  }

  ghost predicate ListIs<O(!new)>(c: Codec<O>, l: List, entries: seq<Entry<O>>) {
    Blank(l.before) && Blank(l.inner) && ItemsAre(c, l.items, entries)
  }

  ghost predicate ShapeIs<O(!new)>(c: Codec<O>, s: Shape, applied: seq<Entry<O>>, undone: seq<Entry<O>>) {
    && Blank(s.before) && Blank(s.middle) && Blank(s.closing) && Blank(s.after)
    && ListIs(c, s.applied, applied) && ListIs(c, s.undone, undone)
  }

  // ---- Blanks ------------------------------------------------------------------------------------

  lemma {:induction false} SkipBlank(blank: string, s: string)
    requires Blank(blank) && (s == [] || !IsSpace(s[0]))
    ensures SkipSpace(blank + s) == s
  {
    if blank == [] {
      assert blank + s == s;
    } else {
      assert (blank + s)[1..] == blank[1..] + s;
      SkipBlank(blank[1..], s);
    }
  }

  lemma {:induction false} BlankTaken(s: string) returns (blank: string)
    ensures Blank(blank) && s == blank + SkipSpace(s)
  {
    blank := [];
    if s != [] && IsSpace(s[0]) {
      blank := BlankTaken(s[1..]);
      Associate([s[0]], blank, SkipSpace(s));
      blank := [s[0]] + blank;
    }
  }

  /** A token is taken behind any blanks. */
  lemma TokenReads(blank: string, token: string, post: string)
    requires Blank(blank) && token != [] && !IsSpace(token[0])
    ensures Expected(blank + (token + post), token) == Some(post)
  {
    var s := token + post;
    assert s[0] == token[0];
    SkipBlank(blank, s);
    assert s[|token|..] == post;
  }

  lemma TokenTaken(s: string, token: string) returns (blank: string)
    requires Expected(s, token).Some?
    ensures Blank(blank) && s == blank + (token + Expected(s, token).value)
  {
    blank := BlankTaken(s);
    var t := SkipSpace(s);
    assert t == token + t[|token|..];
  }

  /** Another token is not found there. */
  lemma OtherToken(blank: string, s: string, token: string)
    requires Blank(blank) && s != [] && !IsSpace(s[0]) && token != [] && token[0] != s[0]
    ensures Expected(blank + s, token) == None
  {
    SkipBlank(blank, s);
  }

  lemma ObjectReads(blank: string, text: string, post: string)
    requires Blank(blank) && IsObject(text)
    ensures ObjectAt(blank + (text + post)) == Some((text, post))
  {
    ObjectBack(text, post);
    var s := text + post;
    ObjectTaken(text, post);
    SkipBlank(blank, s);
    SkipBlank([], s);
    assert [] + s == s;
  }

  // ---- Every such text is read -------------------------------------------------------------------

  lemma PairReads(i: Item, post: string)
    requires Blank(i.opening) && Blank(i.beforeOp) && Blank(i.middle) && Blank(i.beforeInverse) && Blank(i.closing)
    requires IsObject(i.op) && IsObject(i.inverse)
    ensures PairAt(ItemThen(i, post)) == Some((i.op, i.inverse, i.after + post))
  {
    var s4 := i.closing + ("}" + (i.after + post));
    var s3 := i.beforeInverse + (i.inverse + s4);
    var s2 := i.middle + (MIDDLE + s3);
    var s1 := i.beforeOp + (i.op + s2);
    TokenReads(i.opening, OPENING, s1);
    ObjectReads(i.beforeOp, i.op, s2);
    TokenReads(i.middle, MIDDLE, s3);
    ObjectReads(i.beforeInverse, i.inverse, s4);
    TokenReads(i.closing, "}", i.after + post);
  }

  lemma ItemReads<O(!new)>(c: Codec<O>, i: Item, e: Entry<O>, post: string)
    requires ItemIs(c, i, e)
    ensures EntryFrom(c, ItemThen(i, post)) == Some((e, i.after + post))
  {
    PairReads(i, post);
  }

  lemma {:induction false} ItemsRead<O(!new)>(c: Codec<O>, items: seq<Item>, entries: seq<Entry<O>>, read: seq<Entry<O>>,
                                              post: string)
    requires items != [] && ItemsAre(c, items, entries)
    ensures EntriesFrom(c, ItemsThen(items, post), read) == Some((read + entries, post))
    decreases |items|
  {
    var tail := if |items| == 1 then "]" + post else "," + ItemsThen(items[1..], post);
    ItemReads(c, items[0], entries[0], tail);
    assert entries == [entries[0]] + entries[1..];
    Associate(read, [entries[0]], entries[1..]);
    if |items| == 1 {
      TokenReads(items[0].after, "]", post);
      assert read + [entries[0]] == read + entries;
    } else {
      OtherToken(items[0].after, tail, "]");
      TokenReads(items[0].after, ",", ItemsThen(items[1..], post));
      ItemsRead(c, items[1..], entries[1..], read + [entries[0]], post);
    }
  }

  lemma ListReads<O(!new)>(c: Codec<O>, l: List, entries: seq<Entry<O>>, post: string)
    requires ListIs(c, l, entries)
    ensures EntriesAt(c, ListThen(l, post)) == Some((entries, post))
  {
    if l.items == [] {
      TokenReads(l.before, "[", l.inner + ("]" + post));
      TokenReads(l.inner, "]", post);
    } else {
      var s := ItemsThen(l.items, post);
      TokenReads(l.before, "[", s);
      var first := l.items[0];
      OtherToken(first.opening, s[|first.opening|..], "]");
      assert s == first.opening + s[|first.opening|..];
      ItemsRead(c, l.items, entries, [], post);
      assert [] + entries == entries;
    }
  }

  lemma ListsRead<O(!new)>(c: Codec<O>, applied: List, middle: string, undone: List, a: seq<Entry<O>>, u: seq<Entry<O>>,
                           end: string)
    requires ListIs(c, applied, a) && Blank(middle) && ListIs(c, undone, u)
    ensures StacksAt(c, ListThen(applied, middle + (UNDONE + ListThen(undone, end)))) == Some((a, u, end))
  {
    var second := ListThen(undone, end);
    ListReads(c, applied, a, middle + (UNDONE + second));
    TokenReads(middle, UNDONE, second);
    ListReads(c, undone, u, end);
  }

  lemma EndReads(closing: string, after: string)
    requires Blank(closing) && Blank(after)
    ensures Closed(closing + ("}" + after))
  {
    TokenReads(closing, "}", after);
    SkipBlank(after, []);
    assert after + [] == after;
  }

  lemma ShapeReads<O(!new)>(c: Codec<O>, kind: Kind, s: Shape, applied: seq<Entry<O>>, undone: seq<Entry<O>>)
    requires ShapeIs(c, s, applied, undone)
    ensures LogAt(c, kind, ShapeText(kind, s)) == Some((applied, undone))
  {
    var end := s.closing + ("}" + s.after);
    var body := ListThen(s.applied, s.middle + (UNDONE + ListThen(s.undone, end)));
    ListsRead(c, s.applied, s.middle, s.undone, applied, undone, end);
    EndReads(s.closing, s.after);
    BodyReads(c, kind, s.before, body, applied, undone, end);
  }

  lemma BodyReads<O(!new)>(c: Codec<O>, kind: Kind, before: string, body: string, applied: seq<Entry<O>>,
                           undone: seq<Entry<O>>, end: string)
    requires Blank(before) && StacksAt(c, body) == Some((applied, undone, end)) && Closed(end)
    ensures LogAt(c, kind, before + (Header(kind) + body)) == Some((applied, undone))
  {
    TokenReads(before, Header(kind), body);
  }

  // ---- Whatever is read is such a text --------------------------------------------------------------

  lemma ObjectFound(s: string) returns (blank: string)
    requires ObjectAt(s).Some?
    ensures Blank(blank) && IsObject(ObjectAt(s).value.0) && s == blank + (ObjectAt(s).value.0 + ObjectAt(s).value.1)
  {
    blank := BlankTaken(s);
    var t := SkipSpace(s);
    TakenIsObject(t);
    var rest := Scan(t, 0).value;
    assert t == t[..|t| - |rest|] + t[|t| - |rest|..];
  }

  lemma PairTaken(s: string) returns (i: Item)
    requires PairAt(s).Some?
    ensures Blank(i.opening) && Blank(i.beforeOp) && Blank(i.middle) && Blank(i.beforeInverse) && Blank(i.closing)
    ensures IsObject(i.op) && IsObject(i.inverse) && i.op == PairAt(s).value.0 && i.inverse == PairAt(s).value.1
    ensures i.after == [] && s == ItemThen(i, PairAt(s).value.2)
  {
    var opening := TokenTaken(s, OPENING);
    var s1 := Expected(s, OPENING).value;
    var beforeOp := ObjectFound(s1);
    var op := ObjectAt(s1).value;
    var middle := TokenTaken(op.1, MIDDLE);
    var s2 := Expected(op.1, MIDDLE).value;
    var beforeInverse := ObjectFound(s2);
    var inverse := ObjectAt(s2).value;
    var closing := TokenTaken(inverse.1, "}");
    i := Item(opening, beforeOp, op.0, middle, beforeInverse, inverse.0, closing, []);
    assert [] + PairAt(s).value.2 == PairAt(s).value.2;
  }

  /** The blanks behind an item belong to it. */
  lemma AfterItem(i: Item, after: string, post: string)
    requires i.after == []
    ensures ItemThen(i, after + post) == ItemThen(i.(after := after), post)
  {
    assert [] + (after + post) == after + post;
  }

  /** What an item holds, and the token behind it. */
  lemma ItemTaken<O(!new)>(c: Codec<O>, s: string, token: string) returns (i: Item)
    requires EntryFrom(c, s).Some? && Expected(EntryFrom(c, s).value.1, token).Some?
    ensures ItemIs(c, i, EntryFrom(c, s).value.0)
    ensures s == ItemThen(i, token + Expected(EntryFrom(c, s).value.1, token).value)
  {
    var found := PairTaken(s);
    var e := EntryFrom(c, s).value;
    var after := TokenTaken(e.1, token);
    AfterItem(found, after, token + Expected(e.1, token).value);
    i := found.(after := after);
  }

  lemma OneMoreItem<O(!new)>(c: Codec<O>, i: Item, e: Entry<O>, items: seq<Item>, entries: seq<Entry<O>>, post: string)
    requires ItemIs(c, i, e) && ItemsAre(c, items, entries) && items != []
    ensures ItemsAre(c, [i] + items, [e] + entries)
    ensures ItemsThen([i] + items, post) == ItemThen(i, "," + ItemsThen(items, post))
  {
    assert ([i] + items)[1..] == items;
  }

  lemma {:induction false} EntriesTaken<O(!new)>(c: Codec<O>, s: string, read: seq<Entry<O>>)
    returns (items: seq<Item>, entries: seq<Entry<O>>)
    requires EntriesFrom(c, s, read).Some?
    ensures items != [] && ItemsAre(c, items, entries) && s == ItemsThen(items, EntriesFrom(c, s, read).value.1)
    ensures EntriesFrom(c, s, read).value.0 == read + entries
    decreases |s|
  {
    var e := EntryFrom(c, s).value;
    if Expected(e.1, "]").Some? {
      var i := ItemTaken(c, s, "]");
      items, entries := [i], [e.0];
    } else {
      var i := ItemTaken(c, s, ",");
      var more, others := EntriesTaken(c, Expected(e.1, ",").value, read + [e.0]);
      OneMoreItem(c, i, e.0, more, others, EntriesFrom(c, s, read).value.1);
      items, entries := [i] + more, [e.0] + others;
      Associate(read, [e.0], others);
    }
  }

  lemma ListTaken<O(!new)>(c: Codec<O>, s: string) returns (l: List)
    requires EntriesAt(c, s).Some?
    ensures ListIs(c, l, EntriesAt(c, s).value.0) && s == ListThen(l, EntriesAt(c, s).value.1)
  {
    var before := TokenTaken(s, "[");
    var s1 := Expected(s, "[").value;
    if Expected(s1, "]").Some? {
      var inner := TokenTaken(s1, "]");
      l := List(before, inner, []);
    } else {
      var items, entries := EntriesTaken(c, s1, []);
      assert [] + entries == entries;
      l := List(before, [], items);
    }
  }

  lemma LogTaken<O(!new)>(c: Codec<O>, kind: Kind, json: string) returns (s: Shape)
    requires LogAt(c, kind, json).Some?
    ensures ShapeIs(c, s, LogAt(c, kind, json).value.0, LogAt(c, kind, json).value.1) && json == ShapeText(kind, s)
  {
    var before := TokenTaken(json, Header(kind));
    var s1 := Expected(json, Header(kind)).value;
    var applied := ListTaken(c, s1);
    var a := EntriesAt(c, s1).value;
    var middle := TokenTaken(a.1, UNDONE);
    var s2 := Expected(a.1, UNDONE).value;
    var undone := ListTaken(c, s2);
    var u := EntriesAt(c, s2).value;
    var closing := TokenTaken(u.1, "}");
    var after := BlankTaken(Expected(u.1, "}").value);
    assert after + [] == after;
    s := Shape(before, applied, middle, undone, closing, after);
  }

  /** A text is read as two stacks exactly when it is a log of them, with any blanks between its tokens. */
  lemma ReadIff<O(!new)>(c: Codec<O>, kind: Kind, json: string, applied: seq<Entry<O>>, undone: seq<Entry<O>>)
    ensures LogAt(c, kind, json) == Some((applied, undone)) <==>
            exists s :: ShapeIs(c, s, applied, undone) && json == ShapeText(kind, s)
  {
    if LogAt(c, kind, json) == Some((applied, undone)) {
      var s := LogTaken(c, kind, json);
    }
    if s :| ShapeIs(c, s, applied, undone) && json == ShapeText(kind, s) {
      ShapeReads(c, kind, s, applied, undone);
    }
  }
}
