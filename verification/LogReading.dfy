/** The reader that moves a position through a saved log. */
module LogReading {
  import opened Sequences
  import opened Options
  import opened EditHistory
  import opened BalancedText
  import opened LogText

  lemma SpaceStep(s: string, i: nat)
    requires i < |s|
    ensures SkipSpace(s[i..]) == if IsSpace(s[i]) then SkipSpace(s[i + 1..]) else s[i..]
  {
  }

  lemma {:induction false} SpaceTwice(s: string)
    ensures SkipSpace(SkipSpace(s)) == SkipSpace(s)
  {
  }

  /** The scan from inside a string, or from just after a backslash in one. */
  ghost function ScanInside(s: string, depth: int, inString: bool, escaped: bool): Option<string> {
    if !inString then Scan(s, depth)
    else
      match (if !escaped then StringEnd(s) else if s == [] then None else StringEnd(s[1..]))
      case None => None
      case Some(rest) => Scan(rest, depth)
  }

  /** What one character does to the scan, unless it closes the object. */
  lemma ScanStep(s: string, depth: int, inString: bool, escaped: bool)
    requires s != [] && (escaped ==> inString)
    ensures inString && escaped ==> ScanInside(s, depth, true, true) == ScanInside(s[1..], depth, true, false)
    ensures inString && !escaped && s[0] == '\\' ==>
              ScanInside(s, depth, true, false) == ScanInside(s[1..], depth, true, true)
    ensures inString && !escaped && s[0] != '\\' ==>
              ScanInside(s, depth, true, false) == ScanInside(s[1..], depth, s[0] != '\"', false)
    ensures !inString && s[0] == '\"' ==>
              ScanInside(s, depth, false, false) == ScanInside(s[1..], depth, true, false)
    ensures !inString && s[0] == '{' ==>
              ScanInside(s, depth, false, false) == ScanInside(s[1..], depth + 1, false, false)
    ensures !inString && s[0] == '}' ==>
              ScanInside(s, depth, false, false) ==
              if depth - 1 == 0 then Some(s[1..]) else ScanInside(s[1..], depth - 1, false, false)
    ensures !inString && s[0] != '\"' && s[0] != '{' && s[0] != '}' ==>
              ScanInside(s, depth, false, false) == ScanInside(s[1..], depth, false, false)
  {
  }

  class LogReader {
    const input: string
    var position: nat

    constructor (input: string)
      ensures this.input == input && Valid() && Rest() == input
    {
      this.input := input;
      position := 0;
    }

    ghost predicate Valid()
      reads this
    {
      position <= |input|
    }

    ghost function Rest(): string
      requires Valid()
      reads this
    {
      input[position..]
    }

    method Skip()
      requires Valid()
      modifies this`position
      ensures Valid() && Rest() == SkipSpace(old(Rest()))
      ensures position >= old(position)
    {
      while position < |input| && IsSpace(input[position])
        invariant Valid() && position >= old(position)
        invariant SkipSpace(Rest()) == SkipSpace(old(Rest()))
      {
        SpaceStep(input, position);
        position := position + 1;
      }
      if position < |input| {
        SpaceStep(input, position);
      }
    }

    /** Takes the text if it comes next; otherwise only the space before it. */
    method Consume(text: string) returns (ok: bool)
      requires Valid()
      modifies this`position
      ensures Valid() && position >= old(position)
      ensures ok == Expected(old(Rest()), text).Some?
      ensures Rest() == if ok then Expected(old(Rest()), text).value else SkipSpace(old(Rest()))
      ensures ok ==> position >= old(position) + |text|
    {
      Skip();
      if !(text <= input[position..]) {
        return false;
      }
      Drop(input, position, |text|);
      position := position + |text|;
      return true;
    }

    /** Moves past the object that starts here. */
    method PassObject() returns (ok: bool)
      requires Valid() && Rest() != [] && Rest()[0] == '{'
      modifies this`position
      ensures Valid() && position >= old(position)
      ensures ok == Scan(old(Rest()), 0).Some?
      ensures ok ==> Scan(old(Rest()), 0) == Some(Rest())
    {
      var depth, inString, escaped := 0, false, false;
      while position < |input|
        invariant Valid() && position >= old(position)
        invariant escaped ==> inString
        invariant ScanInside(Rest(), depth, inString, escaped) == Scan(old(Rest()), 0)
      {
        var character := input[position];
        ScanStep(Rest(), depth, inString, escaped);
        Drop(input, position, 1);
        position := position + 1;
        if inString {
          if escaped {
            escaped := false;
          } else if character == '\\' {
            escaped := true;
          } else if character == '\"' {
            inString := false;
          }
          continue;
        }
        if character == '\"' {
          inString := true;
        } else if character == '{' {
          depth := depth + 1;
        } else if character == '}' {
          depth := depth - 1;
          if depth == 0 {
            return true;
          }
        }
      }
      return false;
    }

    /** The next object's text, taken whole. */
    method Object() returns (ok: bool, text: string)
      requires Valid()
      modifies this`position
      ensures Valid() && position >= old(position)
      ensures ok == ObjectAt(old(Rest())).Some?
      ensures ok ==> ObjectAt(old(Rest())) == Some((text, Rest())) && position > old(position)
    {
      Skip();
      text := "";
      if position >= |input| || input[position] != '{' {
        return false, text;
      }
      var start := position;
      ghost var s := Rest();
      ok := PassObject();
      if ok {
        assert input[start..position] == s[..|s| - |Rest()|];
        text := input[start..position];
      }
    }

    /** Nothing but space is left. */
    method Finish() returns (ok: bool)
      requires Valid()
      modifies this`position
      ensures Valid() && ok == (SkipSpace(old(Rest())) == [])
    {
      Skip();
      ok := position == |input|;
    }

    method Close() returns (ok: bool)
      requires Valid()
      modifies this`position
      ensures ok == Closed(old(Rest()))
    {
      ok := Consume("}");
      if ok {
        ok := Finish();
      }
    }

    method ReadPair() returns (ok: bool, op: string, inverse: string)
      requires Valid()
      modifies this`position
      ensures Valid() && position >= old(position)
      ensures ok == PairAt(old(Rest())).Some?
      ensures ok ==> PairAt(old(Rest())) == Some((op, inverse, Rest())) && position > old(position)
    {
      op, inverse := "", "";
      ok := Consume(OPENING);
      if ok {
        ok, op := Object();
      }
      if ok {
        ok := Consume(MIDDLE);
      }
      if ok {
        ok, inverse := Object();
      }
      if ok {
        ok := Consume("}");
      }
    }

    method ReadEntry<O(!new)>(c: Codec<O>) returns (r: Option<Entry<O>>)
      requires Valid()
      modifies this`position
      ensures Valid() && position >= old(position)
      ensures r.Some? == EntryFrom(c, old(Rest())).Some?
      ensures r.Some? ==> EntryFrom(c, old(Rest())) == Some((r.value, Rest())) && position > old(position)
    {
      var pair, opText, inverseText := ReadPair();
      if !pair {
        return None;
      }
      var op, inverse := c.Read(opText), c.Read(inverseText);
      if op.None? || inverse.None? {
        return None;
      }
      return Some(Entry(op.value, inverse.value));
    }

    method ReadEntries<O(!new)>(c: Codec<O>) returns (ok: bool, entries: seq<Entry<O>>)
      requires Valid()
      modifies this`position
      ensures Valid() && position >= old(position)
      ensures ok == EntriesAt(c, old(Rest())).Some?
      ensures ok ==> EntriesAt(c, old(Rest())) == Some((entries, Rest()))
    {
      entries := [];
      ok := Consume("[");
      if !ok {
        return;
      }
      EntryAfterSpace(c, Rest());
      ghost var whole := EntriesFrom(c, Rest(), []);
      var empty := Consume("]");
      if empty {
        return;
      }
      while true
        invariant Valid() && position >= old(position)
        invariant EntriesFrom(c, Rest(), entries) == whole
        decreases |input| - position
      {
        var entry := ReadEntry(c);
        if entry.None? {
          return false, [];
        }
        SpaceTwice(Rest());
        entries := entries + [entry.value];
        var last := Consume("]");
        if last {
          return true, entries;
        }
        var more := Consume(",");
        if !more {
          return false, [];
        }
      }
    }

    method ReadStacks<O(!new)>(c: Codec<O>) returns (ok: bool, applied: seq<Entry<O>>, undone: seq<Entry<O>>)
      requires Valid()
      modifies this`position
      ensures Valid()
      ensures ok == StacksAt(c, old(Rest())).Some?
      ensures ok ==> StacksAt(c, old(Rest())) == Some((applied, undone, Rest()))
    {
      undone := [];
      ok, applied := ReadEntries(c);
      if ok {
        ok := Consume(UNDONE);
      }
      if ok {
        ok, undone := ReadEntries(c);
      }
    }

    method ReadBody<O(!new)>(c: Codec<O>) returns (ok: bool, applied: seq<Entry<O>>, undone: seq<Entry<O>>)
      requires Valid()
      modifies this`position
      ensures ok == BodyAt(c, old(Rest())).Some?
      ensures ok ==> BodyAt(c, old(Rest())) == Some((applied, undone))
    {
      ok, applied, undone := ReadStacks(c);
      if ok {
        ok := Close();
      }
    }
  }

  /** Space before an entry does not matter. */
  lemma EntryAfterSpace<O(!new)>(c: Codec<O>, s: string)
    ensures EntriesFrom(c, SkipSpace(s), []) == EntriesFrom(c, s, [])
  {
    SpaceTwice(s);
    assert Expected(SkipSpace(s), OPENING) == Expected(s, OPENING);
    assert PairAt(SkipSpace(s)) == PairAt(s);
  }

  /** The stacks of a whole log, or a refusal that reads nothing. */
  method Deserialize<O(!new)>(c: Codec<O>, kind: Kind, json: string)
    returns (ok: bool, applied: seq<Entry<O>>, undone: seq<Entry<O>>)
    ensures ok == LogAt(c, kind, json).Some?
    ensures ok ==> LogAt(c, kind, json) == Some((applied, undone))
  {
    var reader := new LogReader(json);
    applied, undone := [], [];
    ok := reader.Consume(Header(kind));
    if ok {
      ok, applied, undone := reader.ReadBody(c);
    }
  }
}
