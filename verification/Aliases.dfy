/**
 Short names: letters for a track in bijective base 26, then a clip's number
 in it; and resolving a name to the one identity it stands for.
 */
module Aliases {
  import opened Json
  import opened JsonNumbers
  import opened JsonAccess
  import opened StableSort

  type Id = string

  // ---- Track letters -----------------------------------------------------------------

  function Letter(n: nat): char
    requires n < 26
  {
    ('A' as int + n) as char
  }

  predicate IsLetter(c: char) {
    'A' <= c <= 'Z'
  }

  function Prefix(ordinal: nat): (p: string)
    ensures p != "" && forall i :: 0 <= i < |p| ==> IsLetter(p[i])
  {
    if ordinal < 26 then [Letter(ordinal)] else Prefix(ordinal / 26 - 1) + [Letter(ordinal % 26)]
  }

  method AliasPrefix(ordinal: nat) returns (prefix: string)
    ensures prefix == Prefix(ordinal)
  {
    prefix := "";
    var left := ordinal;
    while true
      invariant Prefix(left) + prefix == Prefix(ordinal)
      decreases left
    {
      assert left >= 26 ==> (Prefix(left / 26 - 1) + [Letter(left % 26)]) + prefix ==
                            Prefix(left / 26 - 1) + ([Letter(left % 26)] + prefix);
      prefix := [Letter(left % 26)] + prefix;
      left := left / 26;
      if left == 0 {
        break;
      }
      left := left - 1;
    }
  }

  /** The ordinal that letters stand for. */
  function Ordinal(p: string): int
    requires p != ""
    decreases |p|
  {
    var last := p[|p| - 1] as int - 'A' as int;
    if |p| == 1 then last else 26 * (Ordinal(p[..|p| - 1]) + 1) + last
  }

  /** Letters read back as the ordinal they were made from, so different ordinals have different letters. */
  lemma {:induction false} PrefixBack(ordinal: nat)
    ensures Ordinal(Prefix(ordinal)) == ordinal
  {
    if ordinal >= 26 {
      var front := Prefix(ordinal / 26 - 1);
      PrefixBack(ordinal / 26 - 1);
      assert Prefix(ordinal)[..|front|] == front;
    }
  }

  // ---- Clip names --------------------------------------------------------------------

  /** The name of a numbered entry. */
  function Alias(ordinal: nat, index: nat): string {
    Prefix(ordinal) + DecimalText(index + 1)
  }

  function LetterCount(s: string): nat {
    if s == "" || !IsLetter(s[0]) then 0 else 1 + LetterCount(s[1..])
  }

  lemma {:induction false} LettersThenDigits(p: string, d: string)
    requires (forall i :: 0 <= i < |p| ==> IsLetter(p[i])) && AllDigits(d)
    ensures LetterCount(p + d) == |p|
  {
    if p == "" {
      assert p + d == d;
    } else {
      assert (p + d)[1..] == p[1..] + d;
      LettersThenDigits(p[1..], d);
    }
  }

  /** Letters and then digits split in one way. */
  lemma SplitOnce(p: string, d: string, q: string, e: string)
    requires p + d == q + e && AllDigits(d) && AllDigits(e)
    requires forall i :: 0 <= i < |p| ==> IsLetter(p[i])
    requires forall i :: 0 <= i < |q| ==> IsLetter(q[i])
    ensures p == q && d == e
  {
    LettersThenDigits(p, d);
    LettersThenDigits(q, e);
    assert (p + d)[..|p|] == p && (q + e)[..|p|] == q;
    assert (p + d)[|p|..] == d && (q + e)[|p|..] == e;
  }

  /** Different track and clip numbers have different names. */
  lemma AliasIsInjective(t: nat, c: nat, u: nat, d: nat)
    ensures Alias(t, c) == Alias(u, d) <==> t == u && c == d
  {
    if Alias(t, c) == Alias(u, d) {
      DecimalBack(c + 1);
      DecimalBack(d + 1);
      SplitOnce(Prefix(t), DecimalText(c + 1), Prefix(u), DecimalText(d + 1));
      PrefixBack(t);
      PrefixBack(u);
    }
  }

  // ---- Names in a document -------------------------------------------------------------

  datatype Track = Track(index: int, clips: seq<Id>)

  datatype Document = Document(tracks: seq<Track>, library: seq<Id>, markers: seq<Id>)

  datatype Named = Named(alias: string, id: Id)

  function IndexOrder(): Order<Track> {
    Order((a: Track, b: Track) => a.index < b.index)
  }

  /** Tracks by index, in their own order where the index is the same. */
  function ByIndex(s: seq<Track>): seq<Track> {
    Sorted(IndexOrder(), s)
  }

  /** The tracks as they are numbered: by index, and those of one index as they were. */
  lemma TracksInOrder(s: seq<Track>, x: Track)
    ensures var r := ByIndex(s);
            && multiset(r) == multiset(s)
            && (forall i, j :: 0 <= i < j < |r| ==> r[i].index <= r[j].index)
            && OfIndex(r, x.index) == OfIndex(s, x.index)
  {
    var o, r := IndexOrder(), ByIndex(s);
    SortedInOrder(o, s);
    SortedIsStable(o, s, x);
    forall i, j | 0 <= i < j < |r|
      ensures r[i].index <= r[j].index
    {
      assert !o.Before(r[j], r[i]);
    }
    LikeIsOfIndex(s, x);
    LikeIsOfIndex(r, x);
  }

  ghost function OfIndex(s: seq<Track>, index: int): seq<Track> {
    if s == [] then []
    else OfIndex(s[..|s| - 1], index) + if s[|s| - 1].index == index then [s[|s| - 1]] else []
  }

  lemma {:induction false} LikeIsOfIndex(s: seq<Track>, x: Track)
    ensures Like(IndexOrder(), s, x) == OfIndex(s, x.index)
  {
    if s != [] {
      LikeIsOfIndex(s[..|s| - 1], x);
    }
  }

  /** The first entries of a list, named by letters and number. */
  function Numbered(ordinal: nat, ids: seq<Id>, n: nat): seq<Named>
    requires n <= |ids|
  {
    if n == 0 then [] else Numbered(ordinal, ids, n - 1) + [Named(Alias(ordinal, n - 1), ids[n - 1])]
  }

  function ClipNames(tracks: seq<Track>, n: nat): seq<Named>
    requires n <= |tracks|
  {
    if n == 0 then [] else ClipNames(tracks, n - 1) + Numbered(n - 1, tracks[n - 1].clips, |tracks[n - 1].clips|)
  }

  /** The ordinals of the letters that library entries and markers are named with. */
  const LIBRARY := 12
  const MARKERS := 10

  lemma FixedLetters()
    ensures Prefix(LIBRARY) == "M" && Prefix(MARKERS) == "K"
  {
  }

  /** Every clip's name as the description prints it, track by track. */
  method PrintedAliases(document: Document) returns (names: seq<Named>)
    ensures names == ClipNames(ByIndex(document.tracks), |ByIndex(document.tracks)|)
  {
    var tracks := ByIndex(document.tracks);
    names := [];
    for trackOrdinal := 0 to |tracks|
      invariant names == ClipNames(tracks, trackOrdinal)
    {
      var clips := tracks[trackOrdinal].clips;
      ghost var before := names;
      for clipIndex := 0 to |clips|
        invariant names == before + Numbered(trackOrdinal, clips, clipIndex)
      {
        var prefix := AliasPrefix(trackOrdinal);
        names := names + [Named(prefix + DecimalText(clipIndex + 1), clips[clipIndex])];
      }
    }
  }

  function AllNames(document: Document): seq<Named> {
    var tracks := ByIndex(document.tracks);
    ClipNames(tracks, |tracks|) +
    (Numbered(LIBRARY, document.library, |document.library|) + Numbered(MARKERS, document.markers, |document.markers|))
  }

  class IdResolver {
    const universe: seq<Id>
    const aliases: seq<Named>

    constructor (universe: seq<Id>, document: Document)
      ensures this.universe == universe && aliases == AllNames(document)
    {
      var names := PrintedAliases(document);
      var clips := names;
      FixedLetters();
      for index := 0 to |document.library|
        invariant names == clips + Numbered(LIBRARY, document.library, index)
      {
        names := names + [Named("M" + DecimalText(index + 1), document.library[index])];
      }
      var withLibrary := names;
      for index := 0 to |document.markers|
        invariant names == withLibrary + Numbered(MARKERS, document.markers, index)
      {
        names := names + [Named("K" + DecimalText(index + 1), document.markers[index])];
      }
      this.universe := universe;
      this.aliases := names;
    }

    method Resolve(input: string) returns (r: Resolution)
      ensures r == Resolved(universe, aliases, input)
    {
      if input == "" {
        return EmptyInput;
      }
      if input in universe {
        return Found(input);
      }
      var alias := UpperAscii(input);
      var match_, matchCount := "", 0;
      for i := 0 to |aliases|
        invariant matchCount == |Matching(aliases[..i], alias)|
        invariant matchCount > 0 ==> match_ == Matching(aliases[..i], alias)[matchCount - 1]
      {
        assert aliases[..i + 1][..i] == aliases[..i];
        if aliases[i].alias != alias {
          continue;
        }
        match_ := aliases[i].id;
        matchCount := matchCount + 1;
      }
      assert aliases[..|aliases|] == aliases;
      if matchCount == 1 {
        return Found(match_);
      }
      if matchCount > 1 {
        return AmbiguousAlias;
      }
      r := ResolvePrefix(input);
    }

    method ResolvePrefix(input: string) returns (r: Resolution)
      ensures r == (var ids := Extending(universe, input);
                    if |ids| == 0 then NoMatch else if |ids| > 1 then AmbiguousPrefix else Found(ids[0]))
    {
      var match_, matchCount := "", 0;
      var i := 0;
      while i < |universe|
        invariant 0 <= i <= |universe|
        invariant matchCount == |Extending(universe[..i], input)| <= 1
        invariant matchCount > 0 ==> match_ == Extending(universe[..i], input)[0]
      {
        assert universe[..i + 1][..i] == universe[..i];
        if input <= universe[i] {
          if matchCount == 0 {
            match_ := universe[i];
          }
          matchCount := matchCount + 1;
          if matchCount > 1 {
            MoreExtend(universe, input, i + 1);
            return AmbiguousPrefix;
          }
        }
        i := i + 1;
      }
      assert universe[..i] == universe;
      if matchCount == 0 {
        return NoMatch;
      }
      return Found(match_);
    }
  }

  // ---- Resolving -----------------------------------------------------------------------

  datatype Resolution = Found(id: Id) | EmptyInput | NoMatch | AmbiguousAlias | AmbiguousPrefix

  function Upper(c: char): char {
    if 'a' <= c <= 'z' then (c as int - 'a' as int + 'A' as int) as char else c
  }

  function UpperAscii(s: string): (r: string)
    ensures |r| == |s| && forall i :: 0 <= i < |s| ==> r[i] == Upper(s[i])
  {
    if s == "" then "" else [Upper(s[0])] + UpperAscii(s[1..])
  }

  /** The identities with a given name, in order. */
  function Matching(names: seq<Named>, alias: string): seq<Id> {
    if names == [] then []
    else
      var last := |names| - 1;
      Matching(names[..last], alias) + if names[last].alias == alias then [names[last].id] else []
  }

  /** The identities that start with a text, in order. */
  function Extending(universe: seq<Id>, prefix: string): seq<Id> {
    if universe == [] then []
    else
      var last := |universe| - 1;
      Extending(universe[..last], prefix) + if prefix <= universe[last] then [universe[last]] else []
  }

  lemma {:induction false} MoreExtend(universe: seq<Id>, prefix: string, n: nat)
    requires n <= |universe|
    ensures |Extending(universe[..n], prefix)| <= |Extending(universe, prefix)|
    decreases |universe|
  {
    if n == |universe| {
      assert universe[..n] == universe;
    } else {
      assert universe[..|universe| - 1][..n] == universe[..n];
      MoreExtend(universe[..|universe| - 1], prefix, n);
    }
  }

  /** A full identity first, then the only name that matches, then the only identity that starts so. */
  function Resolved(universe: seq<Id>, names: seq<Named>, input: string): Resolution {
    if input == "" then EmptyInput
    else if input in universe then Found(input)
    else
      var named := Matching(names, UpperAscii(input));
      if |named| == 1 then Found(named[0])
      else if |named| > 1 then AmbiguousAlias
      else
        var ids := Extending(universe, input);
        if |ids| == 0 then NoMatch else if |ids| > 1 then AmbiguousPrefix else Found(ids[0])
  }

  lemma {:induction false} MatchingJoin(a: seq<Named>, b: seq<Named>, alias: string)
    ensures Matching(a + b, alias) == Matching(a, alias) + Matching(b, alias)
  {
    if b == [] {
      assert a + b == a;
    } else {
      assert (a + b)[..|a + b| - 1] == a + b[..|b| - 1];
      MatchingJoin(a, b[..|b| - 1], alias);
    }
  }

  // ---- Names read back --------------------------------------------------------------------

  /** In a numbered list a name matches its own entry and no other. */
  lemma {:induction false} NumberedMatch(ordinal: nat, ids: seq<Id>, n: nat, t: nat, c: nat)
    requires n <= |ids|
    ensures Matching(Numbered(ordinal, ids, n), Alias(t, c)) == if ordinal == t && c < n then [ids[c]] else []
    decreases n
  {
    if n > 0 {
      NumberedMatch(ordinal, ids, n - 1, t, c);
      AliasIsInjective(ordinal, n - 1, t, c);
      var names := Numbered(ordinal, ids, n);
      assert names[..|names| - 1] == Numbered(ordinal, ids, n - 1);
    }
  }

  /** What matches in the names of one track and of those before it. */
  lemma TrackMatch(names: seq<Named>, more: seq<Named>, a: string, before: seq<Id>, own: seq<Id>)
    requires Matching(names, a) == before && Matching(more, a) == own && (before == [] || own == [])
    ensures Matching(names + more, a) == if before == [] then own else before
  {
    MatchingJoin(names, more, a);
    assert [] + own == own && before + [] == before;
  }

  lemma {:induction false} ClipMatch(tracks: seq<Track>, n: nat, t: nat, c: nat)
    requires n <= |tracks|
    ensures Matching(ClipNames(tracks, n), Alias(t, c)) ==
            if t < n && c < |tracks[t].clips| then [tracks[t].clips[c]] else []
    decreases n
  {
    if n > 0 {
      var clips := tracks[n - 1].clips;
      ClipMatch(tracks, n - 1, t, c);
      NumberedMatch(n - 1, clips, |clips|, t, c);
      TrackMatch(ClipNames(tracks, n - 1), Numbered(n - 1, clips, |clips|), Alias(t, c),
                 if t < n - 1 && c < |tracks[t].clips| then [tracks[t].clips[c]] else [],
                 if n - 1 == t && c < |clips| then [clips[c]] else []);
    }
  }

  lemma AliasIsUpper(t: nat, c: nat)
    ensures UpperAscii(Alias(t, c)) == Alias(t, c)
  {
    DecimalBack(c + 1);
    var a := Alias(t, c);
    forall i | 0 <= i < |a|
      ensures Upper(a[i]) == a[i]
    {
    }
  }

  /** The letters at one place of both alphabets. */
  ghost predicate LowerOf(lower: char, upper: char) {
    'a' <= lower <= 'z' && IsLetter(upper) && lower as int - 'a' as int == Ordinal([upper])
  }

  /** The same text but for the case of its letters. */
  ghost predicate TypedAs(input: string, s: string) {
    |input| == |s| && forall i :: 0 <= i < |s| ==> input[i] == s[i] || LowerOf(input[i], s[i])
  }

  /** Upper case changes the letters of the lower-case alphabet into those at the same place, and nothing else. */
  lemma UpperIs(c: char)
    ensures if 'a' <= c <= 'z' then LowerOf(c, Upper(c)) else Upper(c) == c
    ensures forall u :: LowerOf(c, u) ==> u == Upper(c)
  {
  }

  /** However its letters are typed, a name is found by its upper case. */
  lemma TypedIsUpper(input: string, t: nat, c: nat)
    requires TypedAs(input, Alias(t, c))
    ensures UpperAscii(input) == Alias(t, c)
  {
    var a := Alias(t, c);
    AliasIsUpper(t, c);
    forall i | 0 <= i < |a|
      ensures Upper(input[i]) == a[i]
    {
      assert Upper(a[i]) == UpperAscii(a)[i];
      UpperIs(input[i]);
    }
  }

  /** A name is the letters of its ordinal and the number of its entry, counted from one. */
  lemma AliasReads(t: nat, c: nat)
    ensures var p, d := Prefix(t), DecimalText(c + 1);
            Alias(t, c) == p + d && Ordinal(p) == t && AllDigits(d) && DecimalValue(d) == c + 1
  {
    PrefixBack(t);
    DecimalBack(c + 1);
  }

  /** The name is also that of a library entry or of a marker. */
  ghost predicate AlsoNamed(document: Document, t: nat, c: nat) {
    (t == LIBRARY && c < |document.library|) || (t == MARKERS && c < |document.markers|)
  }

  /**
   A clip's printed name, typed in any case, resolves to that clip, and is
   refused as ambiguous exactly when a library entry or a marker has the same
   name; what is typed is taken not to be an identity itself.
   */
  lemma PrintedNameResolves(universe: seq<Id>, document: Document, t: nat, c: nat, input: string)
    requires t < |ByIndex(document.tracks)| && c < |ByIndex(document.tracks)[t].clips|
    requires TypedAs(input, Alias(t, c)) && input !in universe
    ensures Resolved(universe, AllNames(document), input) ==
            if AlsoNamed(document, t, c) then AmbiguousAlias else Found(ByIndex(document.tracks)[t].clips[c])
  {
    var tracks, a := ByIndex(document.tracks), Alias(t, c);
    var clips := ClipNames(tracks, |tracks|);
    var library := Numbered(LIBRARY, document.library, |document.library|);
    var markers := Numbered(MARKERS, document.markers, |document.markers|);
    ClipMatch(tracks, |tracks|, t, c);
    NumberedMatch(LIBRARY, document.library, |document.library|, t, c);
    NumberedMatch(MARKERS, document.markers, |document.markers|, t, c);
    MatchingJoin(clips, library + markers, a);
    MatchingJoin(library, markers, a);
    TypedIsUpper(input, t, c);
  }

  // ---- No guessing --------------------------------------------------------------------------

  /** The one entry with that name. */
  ghost predicate OnlyNamed(names: seq<Named>, alias: string, k: nat) {
    k < |names| && names[k].alias == alias && forall m :: 0 <= m < |names| && m != k ==> names[m].alias != alias
  }

  /** The one place of an identity that starts so. */
  ghost predicate OnlyExtends(universe: seq<Id>, prefix: string, k: nat) {
    k < |universe| && prefix <= universe[k] && forall m :: 0 <= m < |universe| && m != k ==> !(prefix <= universe[m])
  }

  lemma {:induction false} NoneNamed(names: seq<Named>, alias: string)
    ensures Matching(names, alias) == [] <==> forall m :: 0 <= m < |names| ==> names[m].alias != alias
  {
    if names != [] {
      var front, last := names[..|names| - 1], |names| - 1;
      NoneNamed(front, alias);
      assert forall m :: 0 <= m < last ==> front[m] == names[m];
    }
  }

  lemma {:induction false} NamedOnce(names: seq<Named>, alias: string) returns (k: nat)
    requires |Matching(names, alias)| == 1
    ensures OnlyNamed(names, alias, k) && names[k].id == Matching(names, alias)[0]
  {
    var front, last := names[..|names| - 1], |names| - 1;
    assert forall m :: 0 <= m < last ==> front[m] == names[m];
    if names[last].alias == alias {
      k := last;
      NoneNamed(front, alias);
    } else {
      k := NamedOnce(front, alias);
    }
  }

  lemma {:induction false} NoneExtends(universe: seq<Id>, prefix: string)
    ensures Extending(universe, prefix) == [] <==> forall m :: 0 <= m < |universe| ==> !(prefix <= universe[m])
  {
    if universe != [] {
      var front, last := universe[..|universe| - 1], |universe| - 1;
      NoneExtends(front, prefix);
      assert forall m :: 0 <= m < last ==> front[m] == universe[m];
    }
  }

  lemma {:induction false} ExtendsOnce(universe: seq<Id>, prefix: string) returns (k: nat)
    requires |Extending(universe, prefix)| == 1
    ensures OnlyExtends(universe, prefix, k) && universe[k] == Extending(universe, prefix)[0]
  {
    var front, last := universe[..|universe| - 1], |universe| - 1;
    assert forall m :: 0 <= m < last ==> front[m] == universe[m];
    if prefix <= universe[last] {
      k := last;
      NoneExtends(front, prefix);
    } else {
      k := ExtendsOnce(front, prefix);
    }
  }

  /**
   Resolving never picks one of two matching entries: unless the input is an
   identity itself, what it finds belongs to the only entry with that name, or,
   when no entry has it, is the only identity that starts so.
   */
  lemma NeverGuesses(universe: seq<Id>, names: seq<Named>, input: string)
    requires input !in universe && Resolved(universe, names, input).Found?
    ensures var id := Resolved(universe, names, input).id;
            || (exists k: nat :: OnlyNamed(names, UpperAscii(input), k) && names[k].id == id)
            || ((forall m :: 0 <= m < |names| ==> names[m].alias != UpperAscii(input)) &&
                exists k: nat :: OnlyExtends(universe, input, k) && universe[k] == id)
  {
    if |Matching(names, UpperAscii(input))| == 1 {
      var k := NamedOnce(names, UpperAscii(input));
    } else {
      NoneNamed(names, UpperAscii(input));
      var k := ExtendsOnce(universe, input);
    }
  }

  lemma {:induction false} OnlyOneNamed(names: seq<Named>, alias: string, k: nat)
    requires OnlyNamed(names, alias, k)
    ensures Matching(names, alias) == [names[k].id]
    decreases |names|
  {
    var front, last := names[..|names| - 1], |names| - 1;
    assert forall m :: 0 <= m < last ==> front[m] == names[m];
    if k == last {
      NoneNamed(front, alias);
    } else {
      OnlyOneNamed(front, alias, k);
    }
  }

  lemma {:induction false} OnlyOneExtends(universe: seq<Id>, prefix: string, k: nat)
    requires OnlyExtends(universe, prefix, k)
    ensures Extending(universe, prefix) == [universe[k]]
    decreases |universe|
  {
    var front, last := universe[..|universe| - 1], |universe| - 1;
    assert forall m :: 0 <= m < last ==> front[m] == universe[m];
    if k == last {
      NoneExtends(front, prefix);
    } else {
      OnlyOneExtends(front, prefix, k);
    }
  }

  /** And it does find: the only entry with that name, or when no entry has it the only identity that starts so. */
  lemma OnlyOneIsFound(universe: seq<Id>, names: seq<Named>, input: string, k: nat)
    requires input != "" && input !in universe
    ensures OnlyNamed(names, UpperAscii(input), k) ==> Resolved(universe, names, input) == Found(names[k].id)
    ensures (forall m :: 0 <= m < |names| ==> names[m].alias != UpperAscii(input)) && OnlyExtends(universe, input, k) ==>
              Resolved(universe, names, input) == Found(universe[k])
  {
    if OnlyNamed(names, UpperAscii(input), k) {
      OnlyOneNamed(names, UpperAscii(input), k);
    } else if OnlyExtends(universe, input, k) {
      NoneNamed(names, UpperAscii(input));
      OnlyOneExtends(universe, input, k);
    }
  }

  /** Each refusal says what is so. */
  lemma RefusalsAreTrue(universe: seq<Id>, names: seq<Named>, input: string)
    ensures var r := Resolved(universe, names, input);
            && (r == EmptyInput <==> input == "")
            && (input != "" && input in universe ==> r == Found(input))
            && (r == NoMatch ==> (forall m :: 0 <= m < |names| ==> names[m].alias != UpperAscii(input)) &&
                                 forall m :: 0 <= m < |universe| ==> !(input <= universe[m]))
            && (r == AmbiguousAlias ==>
                  exists a, b :: 0 <= a < b < |names| && names[a].alias == names[b].alias == UpperAscii(input))
            && (r == AmbiguousPrefix ==> exists a, b :: 0 <= a < b < |universe| && input <= universe[a] && input <= universe[b])
  {
    NoneNamed(names, UpperAscii(input));
    NoneExtends(universe, input);
    if Resolved(universe, names, input) == AmbiguousAlias {
      var a, b := TwoNamed(names, UpperAscii(input));
    } else if Resolved(universe, names, input) == AmbiguousPrefix {
      var a, b := TwoExtend(universe, input);
    }
  }

  lemma {:induction false} TwoNamed(names: seq<Named>, alias: string) returns (a: nat, b: nat)
    requires |Matching(names, alias)| > 1
    ensures a < b < |names| && names[a].alias == names[b].alias == alias
  {
    var front, last := names[..|names| - 1], |names| - 1;
    if names[last].alias == alias {
      b := last;
      NoneNamed(front, alias);
      a :| a < |front| && front[a].alias == alias;
    } else {
      a, b := TwoNamed(front, alias);
    }
  }

  lemma {:induction false} TwoExtend(universe: seq<Id>, prefix: string) returns (a: nat, b: nat)
    requires |Extending(universe, prefix)| > 1
    ensures a < b < |universe| && prefix <= universe[a] && prefix <= universe[b]
  {
    var front, last := universe[..|universe| - 1], |universe| - 1;
    if prefix <= universe[last] {
      b := last;
      NoneExtends(front, prefix);
      a :| a < |front| && prefix <= front[a];
    } else {
      a, b := TwoExtend(front, prefix);
    }
  }
}
