/**
 The text form of an edit log, its writer and its reader. Operations write
 themselves as balanced objects and read themselves back; everything else
 about their text is left open.
 */
module LogText {
  import opened Sequences
  import opened Options
  import opened EditHistory
  import opened BalancedText

  /** How an operation is written and read. */
  datatype Codec<!O(!new)> = Codec(write: O -> string, read: string -> Option<O>)
  {
    function Write(op: O): string {
      write(op)
    }

    function Read(text: string): Option<O> {
      read(text)
    }

    ghost predicate RoundTrips() {
      forall op :: Read(Write(op)) == Some(op) && IsObject(Write(op))
    }
  }

  /** A log of one document's edits, or of a whole project's. */
  datatype Kind = Document | Project

  const OPENING := "{\"op\":"
  const MIDDLE := ",\"inverse\":"
  const UNDONE := ",\"undone\":"

  function Header(kind: Kind): string {
    match kind
    case Document => "{\"version\":1,\"applied\":"
    case Project => "{\"version\":1,\"kind\":\"project\",\"applied\":"
  }

  // ---- Writing -----------------------------------------------------------------------

  function EntryText<O(!new)>(c: Codec<O>, e: Entry<O>): string {
    OPENING + (c.Write(e.op) + (MIDDLE + (c.Write(e.inverse) + "}")))
  }

  /** What follows an entry: the entries after it, each behind a comma, and the bracket. */
  function Tail<O(!new)>(c: Codec<O>, entries: seq<Entry<O>>): string {
    if entries == [] then "]" else "," + (EntryText(c, entries[0]) + Tail(c, entries[1..]))
  }

  function EntriesText<O(!new)>(c: Codec<O>, entries: seq<Entry<O>>): string {
    if entries == [] then "[]" else "[" + (EntryText(c, entries[0]) + Tail(c, entries[1..]))
  }

  function LogOf<O(!new)>(c: Codec<O>, kind: Kind, applied: seq<Entry<O>>, undone: seq<Entry<O>>): string {
    Header(kind) + (EntriesText(c, applied) + (UNDONE + (EntriesText(c, undone) + "}\n")))
  }

  /** What writing the entries from one on still has to write. */
  ghost function Pending<O(!new)>(c: Codec<O>, entries: seq<Entry<O>>, i: nat): string
    requires i <= |entries|
  {
    if 0 == i < |entries| then EntryText(c, entries[0]) + Tail(c, entries[1..]) else Tail(c, entries[i..])
  }

  lemma PendingStep<O(!new)>(c: Codec<O>, entries: seq<Entry<O>>, i: nat)
    requires i < |entries|
    ensures Pending(c, entries, i) ==
            ((if i > 0 then "," else "") + EntryText(c, entries[i])) + Pending(c, entries, i + 1)
  {
    if i == 0 {
      assert "" + EntryText(c, entries[0]) == EntryText(c, entries[0]);
    } else {
      Associate(",", EntryText(c, entries[i]), Tail(c, entries[i + 1..]));
      assert entries[i..][1..] == entries[i + 1..];
    }
  }

  lemma EntryJoined<O(!new)>(c: Codec<O>, e: Entry<O>, out: string)
    ensures out + OPENING + c.Write(e.op) + MIDDLE + c.Write(e.inverse) + "}" == out + EntryText(c, e)
  {
  }

  method WriteEntries<O(!new)>(c: Codec<O>, output: string, entries: seq<Entry<O>>) returns (out: string)
    ensures out == output + EntriesText(c, entries)
  {
    out := output + "[";
    assert EntriesText(c, entries) == "[" + Pending(c, entries, 0);
    Associate(output, "[", Pending(c, entries, 0));
    var i := 0;
    while i < |entries|
      invariant 0 <= i <= |entries|
      invariant out + Pending(c, entries, i) == output + EntriesText(c, entries)
    {
      var comma := if i > 0 then "," else "";
      PendingStep(c, entries, i);
      Associate(out, comma + EntryText(c, entries[i]), Pending(c, entries, i + 1));
      Associate(out, comma, EntryText(c, entries[i]));
      EntryJoined(c, entries[i], out + comma);
      out := out + comma;
      out := out + OPENING + c.Write(entries[i].op) + MIDDLE + c.Write(entries[i].inverse) + "}";
      i := i + 1;
    }
    out := out + "]";
  }

  method Serialize<O(!new)>(c: Codec<O>, kind: Kind, applied: seq<Entry<O>>, undone: seq<Entry<O>>)
    returns (out: string)
    ensures out == LogOf(c, kind, applied, undone)
  {
    var a, u := EntriesText(c, applied), EntriesText(c, undone);
    out := WriteEntries(c, Header(kind), applied);
    out := out + UNDONE;
    out := WriteEntries(c, out, undone);
    out := out + "}\n";
    Associate(Header(kind) + a + UNDONE, u, "}\n");
    Associate(Header(kind) + a, UNDONE, u + "}\n");
    Associate(Header(kind), a, UNDONE + (u + "}\n"));
  }

  // ---- What reading accepts ---------------------------------------------------------------

  predicate IsSpace(c: char) {
    c == ' ' || 9 <= c as int <= 13
  }

  /** Blank, tab, line feed, vertical tab, form feed and carriage return. */
  lemma SpacesAre(c: char)
    ensures IsSpace(c) <==> c as int in {32, 9, 10, 11, 12, 13}
  {
  }

  function SkipSpace(s: string): (r: string)
    ensures |r| <= |s|
    ensures r != [] ==> !IsSpace(r[0])
  {
    if s != [] && IsSpace(s[0]) then SkipSpace(s[1..]) else s
  }

  function Expected(s: string, text: string): (r: Option<string>)
    ensures r.Some? ==> |r.value| + |text| <= |s|
  {
    var t := SkipSpace(s);
    if text <= t then Some(t[|text|..]) else None
  }

  function ObjectAt(s: string): (r: Option<(string, string)>)
    ensures r.Some? ==> |r.value.1| < |s|
  {
    var t := SkipSpace(s);
    if t == [] || t[0] != '{' then None
    else
      match Scan(t, 0)
      case None => None
      case Some(rest) => Some((t[..|t| - |rest|], rest))
  }

  /** The two object texts of one entry. */
  function PairAt(s: string): (r: Option<(string, string, string)>)
    ensures r.Some? ==> |r.value.2| < |s|
  {
    match Expected(s, OPENING)
    case None => None
    case Some(s1) =>
      match ObjectAt(s1)
      case None => None
      case Some(op) =>
        match Expected(op.1, MIDDLE)
        case None => None
        case Some(s2) =>
          match ObjectAt(s2)
          case None => None
          case Some(inverse) =>
            match Expected(inverse.1, "}")
            case None => None
            case Some(rest) => Some((op.0, inverse.0, rest))
  }

  function EntryFrom<O(!new)>(c: Codec<O>, s: string): (r: Option<(Entry<O>, string)>)
    ensures r.Some? ==> |r.value.1| < |s|
  {
    match PairAt(s)
    case None => None
    case Some(p) =>
      match (c.Read(p.0), c.Read(p.1))
      case (Some(op), Some(inverse)) => Some((Entry(op, inverse), p.2))
      case _ => None
  }

  /** An entry and what follows it, after the entries already read. */
  function EntriesFrom<O(!new)>(c: Codec<O>, s: string, read: seq<Entry<O>>): (r: Option<(seq<Entry<O>>, string)>)
    ensures r.Some? ==> |r.value.1| < |s|
    decreases |s|
  {
    match EntryFrom(c, s)
    case None => None
    case Some(e) =>
      if Expected(e.1, "]").Some? then Some((read + [e.0], Expected(e.1, "]").value))
      else
        match Expected(e.1, ",")
        case None => None
        case Some(rest) => EntriesFrom(c, rest, read + [e.0])
  }

  function EntriesAt<O(!new)>(c: Codec<O>, s: string): (r: Option<(seq<Entry<O>>, string)>)
    ensures r.Some? ==> |r.value.1| < |s|
  {
    match Expected(s, "[")
    case None => None
    case Some(s1) =>
      if Expected(s1, "]").Some? then Some(([], Expected(s1, "]").value)) else EntriesFrom(c, s1, [])
  }

  /** Both stacks, up to the closing brace. */
  function StacksAt<O(!new)>(c: Codec<O>, s: string): (r: Option<(seq<Entry<O>>, seq<Entry<O>>, string)>) {
    match EntriesAt(c, s)
    case None => None
    case Some(applied) =>
      match Expected(applied.1, UNDONE)
      case None => None
      case Some(s2) =>
        match EntriesAt(c, s2)
        case None => None
        case Some(undone) => Some((applied.0, undone.0, undone.1))
  }

  /** The closing brace and nothing after it. */
  predicate Closed(s: string) {
    match Expected(s, "}")
    case None => false
    case Some(rest) => SkipSpace(rest) == []
  }

  /** Both stacks, the closing brace, and nothing after it. */
  function BodyAt<O(!new)>(c: Codec<O>, s: string): Option<(seq<Entry<O>>, seq<Entry<O>>)> {
    match StacksAt(c, s)
    case None => None
    case Some(stacks) => if Closed(stacks.2) then Some((stacks.0, stacks.1)) else None
  }

  /** The applied and undone entries of a whole log. */
  function LogAt<O(!new)>(c: Codec<O>, kind: Kind, json: string): Option<(seq<Entry<O>>, seq<Entry<O>>)> {
    match Expected(json, Header(kind))
    case None => None
    case Some(s1) => BodyAt(c, s1)
  }

  // ---- Reading back what was written --------------------------------------------------------

  lemma Prefixed(text: string, post: string)
    requires text != [] && !IsSpace(text[0])
    ensures Expected(text + post, text) == Some(post)
  {
  }

  lemma ObjectBack(text: string, post: string)
    requires IsObject(text)
    ensures ObjectAt(text + post) == Some((text, post))
  {
    ObjectTaken(text, post);
    var s := text + post;
    assert s[0] == '{' && SkipSpace(s) == s;
    assert s[..|text|] == text;
  }

  lemma PairBack<O(!new)>(c: Codec<O>, e: Entry<O>, post: string)
    requires IsObject(c.Write(e.op)) && IsObject(c.Write(e.inverse))
    ensures PairAt(EntryText(c, e) + post) == Some((c.Write(e.op), c.Write(e.inverse), post))
  {
    var a, b := c.Write(e.op), c.Write(e.inverse);
    var s4 := "}" + post;
    var s3 := b + s4;
    var s2 := MIDDLE + s3;
    var s1 := a + s2;
    Associate(OPENING, a + (MIDDLE + (b + "}")), post);
    Associate(a, MIDDLE + (b + "}"), post);
    Associate(MIDDLE, b + "}", post);
    Associate(b, "}", post);
    Prefixed(OPENING, s1);
    ObjectBack(a, s2);
    Prefixed(MIDDLE, s3);
    ObjectBack(b, s4);
    Prefixed("}", post);
  }

  lemma EntryBack<O(!new)>(c: Codec<O>, e: Entry<O>, post: string)
    requires c.RoundTrips()
    ensures EntryFrom(c, EntryText(c, e) + post) == Some((e, post))
  {
    assert c.Read(c.Write(e.op)) == Some(e.op) && c.Read(c.Write(e.inverse)) == Some(e.inverse);
    PairBack(c, e, post);
  }

  lemma NotExpected(s: string, text: string)
    requires s != [] && !IsSpace(s[0]) && text != [] && s[0] != text[0]
    ensures Expected(s, text) == None
  {
  }

  lemma LastEntry<O(!new)>(c: Codec<O>, e: Entry<O>, before: seq<Entry<O>>, post: string)
    requires c.RoundTrips()
    ensures EntriesFrom(c, EntryText(c, e) + ("]" + post), before) == Some((before + [e], post))
  {
    EntryBack(c, e, "]" + post);
    Prefixed("]", post);
  }

  lemma MoreEntries<O(!new)>(c: Codec<O>, e: Entry<O>, before: seq<Entry<O>>, more: string)
    requires c.RoundTrips()
    ensures EntriesFrom(c, EntryText(c, e) + ("," + more), before) == EntriesFrom(c, more, before + [e])
  {
    EntryBack(c, e, "," + more);
    NotExpected("," + more, "]");
    Prefixed(",", more);
  }

  lemma {:induction false} TailBack<O(!new)>(c: Codec<O>, entries: seq<Entry<O>>, before: seq<Entry<O>>, post: string)
    requires c.RoundTrips() && entries != []
    ensures EntriesFrom(c, EntryText(c, entries[0]) + (Tail(c, entries[1..]) + post), before)
            == Some((before + entries, post))
    decreases |entries|
  {
    var e, rest := entries[0], entries[1..];
    if rest == [] {
      assert entries == [e] && Tail(c, rest) == "]";
      LastEntry(c, e, before, post);
    } else {
      assert entries == [e] + rest;
      Associate(before, [e], rest);
      var more := EntryText(c, rest[0]) + (Tail(c, rest[1..]) + post);
      Associate(",", EntryText(c, rest[0]) + Tail(c, rest[1..]), post);
      Associate(EntryText(c, rest[0]), Tail(c, rest[1..]), post);
      assert Tail(c, rest) + post == "," + more;
      MoreEntries(c, e, before, more);
      TailBack(c, rest, before + [e], post);
    }
  }

  lemma EntriesBack<O(!new)>(c: Codec<O>, entries: seq<Entry<O>>, post: string)
    requires c.RoundTrips()
    ensures EntriesAt(c, EntriesText(c, entries) + post) == Some((entries, post))
  {
    if entries == [] {
      assert EntriesText(c, entries) + post == "[" + ("]" + post);
      Prefixed("[", "]" + post);
      Prefixed("]", post);
    } else {
      var body := EntryText(c, entries[0]) + (Tail(c, entries[1..]) + post);
      Associate("[", EntryText(c, entries[0]) + Tail(c, entries[1..]), post);
      Associate(EntryText(c, entries[0]), Tail(c, entries[1..]), post);
      Prefixed("[", body);
      assert body[0] == '{';
      NotExpected(body, "]");
      TailBack(c, entries, [], post);
      assert [] + entries == entries;
    }
  }

  lemma StacksBack<O(!new)>(c: Codec<O>, applied: seq<Entry<O>>, undone: seq<Entry<O>>, post: string)
    requires c.RoundTrips()
    ensures StacksAt(c, EntriesText(c, applied) + (UNDONE + (EntriesText(c, undone) + post)))
            == Some((applied, undone, post))
  {
    var rest := EntriesText(c, undone) + post;
    EntriesBack(c, applied, UNDONE + rest);
    Prefixed(UNDONE, rest);
    EntriesBack(c, undone, post);
  }

  /** A written log reads back as the same two stacks, for any number of entries. */
  lemma LogBack<O(!new)>(c: Codec<O>, kind: Kind, applied: seq<Entry<O>>, undone: seq<Entry<O>>)
    requires c.RoundTrips()
    ensures LogAt(c, kind, LogOf(c, kind, applied, undone)) == Some((applied, undone))
  {
    Prefixed(Header(kind), EntriesText(c, applied) + (UNDONE + (EntriesText(c, undone) + "}\n")));
    StacksBack(c, applied, undone, "}\n");
    Ends();
  }

  lemma Ends()
    ensures Closed("}\n")
  {
  }

  /** The two kinds of log are never mistaken for each other. */
  lemma KindsDiffer<O(!new)>(c: Codec<O>, applied: seq<Entry<O>>, undone: seq<Entry<O>>)
    ensures LogAt(c, Document, LogOf(c, Project, applied, undone)) == None
    ensures LogAt(c, Project, LogOf(c, Document, applied, undone)) == None
  {
    var p, d := LogOf(c, Project, applied, undone), LogOf(c, Document, applied, undone);
    assert p[..|Header(Project)|] == Header(Project) && d[..|Header(Document)|] == Header(Document);
    assert p[14] == 'k' && d[14] == 'a';
    assert Header(Document)[14] == 'a' && Header(Project)[14] == 'k';
    assert SkipSpace(p) == p && SkipSpace(d) == d;
  }
}
