/**
 Finding one object in a text without parsing it: count braces, skip over
 strings. The counting takes exactly one balanced object, whatever the
 strings inside it contain.
 */
module BalancedText {
  import opened Sequences
  import opened Options

  // ---- The scan --------------------------------------------------------------------

  /** What follows the closing quote of a string whose opening quote has been passed. */
  function StringEnd(s: string): (r: Option<string>)
    ensures r.Some? ==> |r.value| < |s|
  {
    if s == [] then None
    else if s[0] == '\"' then Some(s[1..])
    else if s[0] == '\\' then if |s| < 2 then None else StringEnd(s[2..])
    else StringEnd(s[1..])
  }

  /** What follows the brace that brings the depth back to zero. */
  function Scan(s: string, depth: int): (r: Option<string>)
    ensures r.Some? ==> |r.value| < |s|
    decreases |s|
  {
    if s == [] then None
    else if s[0] == '\"' then
      match StringEnd(s[1..])
      case None => None
      case Some(rest) => Scan(rest, depth)
    else if s[0] == '{' then Scan(s[1..], depth + 1)
    else if s[0] == '}' then if depth - 1 == 0 then Some(s[1..]) else Scan(s[1..], depth - 1)
    else Scan(s[1..], depth)
  }

  // ---- Balanced objects -----------------------------------------------------------------

  /** A text in pieces: characters other than quotes and braces, strings, and braces around pieces. */
  datatype Piece = Char(c: char) | Text(body: string) | Braces(inner: seq<Piece>)

  /** The inside of a string: every quote is escaped, and every backslash escapes something. */
  ghost predicate IsBody(body: string) {
    body == [] ||
    (if body[0] == '\\' then |body| >= 2 && IsBody(body[2..]) else body[0] != '\"' && IsBody(body[1..]))
  }

  ghost predicate WellFormed(p: Piece)
    decreases p, 1
  {
    match p
    case Char(c) => c != '\"' && c != '{' && c != '}'
    case Text(body) => IsBody(body)
    case Braces(inner) => AllWellFormed(inner)
  }

  ghost predicate AllWellFormed(ps: seq<Piece>)
    decreases ps, 0
  {
    ps != [] ==> WellFormed(ps[0]) && AllWellFormed(ps[1..])
  }

  function Render(p: Piece): string
    decreases p, 1
  {
    match p
    case Char(c) => [c]
    case Text(body) => "\"" + (body + "\"")
    case Braces(inner) => "{" + (RenderAll(inner) + "}")
  }

  function RenderAll(ps: seq<Piece>): string
    decreases ps, 0
  {
    if ps == [] then [] else Render(ps[0]) + RenderAll(ps[1..])
  }

  /** One balanced object. */
  ghost predicate IsObject(text: string) {
    exists inner :: AllWellFormed(inner) && text == Render(Braces(inner))
  }

  // ---- Balanced objects are taken whole ---------------------------------------------------

  lemma {:induction false} BodyEnds(body: string, post: string)
    requires IsBody(body)
    ensures StringEnd(body + ("\"" + post)) == Some(post)
    decreases |body|
  {
    var s := body + ("\"" + post);
    if body == [] {
      assert s == "\"" + post && s[1..] == post;
    } else {
      var k := if body[0] == '\\' then 2 else 1;
      assert s[0] == body[0] && s[k..] == body[k..] + ("\"" + post);
      BodyEnds(body[k..], post);
    }
  }

  /** A well-formed piece leaves the depth as it was. */
  lemma {:induction false} PiecePassed(p: Piece, post: string, depth: nat)
    requires WellFormed(p) && depth >= 1
    ensures Scan(Render(p) + post, depth) == Scan(post, depth)
    decreases p, 1
  {
    var s := Render(p) + post;
    match p
    case Char(c) =>
      assert s[0] == c && s[1..] == post;
    case Text(body) =>
      assert s[0] == '\"' && s[1..] == body + ("\"" + post);
      BodyEnds(body, post);
    case Braces(inner) =>
      var close := "}" + post;
      assert s[0] == '{' && s[1..] == RenderAll(inner) + close;
      PiecesPassed(inner, close, depth + 1);
      assert close[0] == '}' && close[1..] == post;
  }

  lemma {:induction false} PiecesPassed(ps: seq<Piece>, post: string, depth: nat)
    requires AllWellFormed(ps) && depth >= 1
    ensures Scan(RenderAll(ps) + post, depth) == Scan(post, depth)
    decreases ps, 0
  {
    if ps == [] {
      assert RenderAll(ps) + post == post;
    } else {
      Associate(Render(ps[0]), RenderAll(ps[1..]), post);
      PiecePassed(ps[0], RenderAll(ps[1..]) + post, depth);
      PiecesPassed(ps[1..], post, depth);
    }
  }

  /** A balanced object is scanned to its own end, whatever comes after it. */
  lemma ObjectTaken(text: string, post: string)
    requires IsObject(text)
    ensures text != [] && text[0] == '{' && Scan(text + post, 0) == Some(post)
  {
    var inner :| AllWellFormed(inner) && text == Render(Braces(inner));
    var s, close := text + post, "}" + post;
    assert s[0] == '{' && s[1..] == RenderAll(inner) + close;
    PiecesPassed(inner, close, 1);
    assert close[0] == '}' && close[1..] == post;
  }

  // ---- What is taken is a balanced object --------------------------------------------------

  lemma {:induction false} BodyTaken(s: string) returns (body: string)
    requires StringEnd(s).Some?
    ensures IsBody(body) && s == body + ("\"" + StringEnd(s).value)
    decreases |s|
  {
    body := [];
    if s[0] != '\"' {
      var k := if s[0] == '\\' then 2 else 1;
      var more := BodyTaken(s[k..]);
      body := s[..k] + more;
      assert body[k..] == more;
      Associate(s[..k], more, "\"" + StringEnd(s).value);
      assert s == s[..k] + s[k..];
    }
  }

  /** The pieces still open at each depth, innermost first, each closed by its brace. */
  function Closing(levels: seq<seq<Piece>>): string {
    if levels == [] then [] else RenderAll(levels[0]) + ("}" + Closing(levels[1..]))
  }

  ghost predicate LevelsWellFormed(levels: seq<seq<Piece>>) {
    forall i :: 0 <= i < |levels| ==> AllWellFormed(levels[i])
  }

  lemma Prepended(p: Piece, levels: seq<seq<Piece>>, rest: string)
    requires WellFormed(p) && levels != [] && LevelsWellFormed(levels)
    ensures var more := [[p] + levels[0]] + levels[1..];
            LevelsWellFormed(more) && Closing(more) + rest == Render(p) + (Closing(levels) + rest)
  {
  }

  /** The innermost level, closed, is a piece of the next one. */
  lemma Enclosed(levels: seq<seq<Piece>>, rest: string)
    requires |levels| >= 2 && LevelsWellFormed(levels)
    ensures var more := [[Braces(levels[0])] + levels[1]] + levels[2..];
            LevelsWellFormed(more) && Closing(more) + rest == "{" + (Closing(levels) + rest)
  {
    var inner, outer := RenderAll(levels[0]), levels[1..];
    Prepended(Braces(levels[0]), outer, rest);
    assert outer[1..] == levels[2..] && outer[0] == levels[1];
    Associate("{", inner + "}", Closing(outer) + rest);
    Associate(inner, "}", Closing(outer) + rest);
    Associate(inner, "}" + Closing(outer), rest);
    Associate("}", Closing(outer), rest);
  }

  lemma Entered(levels: seq<seq<Piece>>, rest: string)
    requires LevelsWellFormed(levels)
    ensures LevelsWellFormed([[]] + levels) && Closing([[]] + levels) + rest == "}" + (Closing(levels) + rest)
  {
  }

  /** One step of the scan over a piece that is not a brace. */
  lemma PieceTaken(s: string, depth: int) returns (p: Piece, after: string)
    requires s != [] && s[0] != '{' && s[0] != '}' && Scan(s, depth).Some?
    ensures WellFormed(p) && s == Render(p) + after && |after| < |s| && Scan(s, depth) == Scan(after, depth)
  {
    if s[0] == '\"' {
      var body := BodyTaken(s[1..]);
      p, after := Text(body), StringEnd(s[1..]).value;
      assert s == "\"" + (body + ("\"" + after));
    } else {
      p, after := Char(s[0]), s[1..];
    }
  }

  lemma {:induction false} LevelsTaken(s: string, depth: nat) returns (levels: seq<seq<Piece>>)
    requires depth >= 1 && Scan(s, depth).Some?
    ensures |levels| == depth && LevelsWellFormed(levels)
    ensures s == Closing(levels) + Scan(s, depth).value
    decreases |s|
  {
    var rest := Scan(s, depth).value;
    assert s == [s[0]] + s[1..];
    if s[0] == '{' {
      var inner := LevelsTaken(s[1..], depth + 1);
      Enclosed(inner, rest);
      levels := [[Braces(inner[0])] + inner[1]] + inner[2..];
    } else if s[0] == '}' {
      var outer: seq<seq<Piece>> := [];
      if depth > 1 {
        outer := LevelsTaken(s[1..], depth - 1);
      }
      Entered(outer, rest);
      levels := [[]] + outer;
    } else {
      var p, after := PieceTaken(s, depth);
      var inner := LevelsTaken(after, depth);
      Prepended(p, inner, rest);
      levels := [[p] + inner[0]] + inner[1..];
    }
  }

  /** What the scan takes from a brace on is one balanced object. */
  lemma TakenIsObject(s: string)
    requires s != [] && s[0] == '{' && Scan(s, 0).Some?
    ensures var rest := Scan(s, 0).value; IsObject(s[..|s| - |rest|]) && s[|s| - |rest|..] == rest
  {
    var rest := Scan(s, 0).value;
    var levels := LevelsTaken(s[1..], 1);
    assert levels[1..] == [];
    assert Closing(levels) == RenderAll(levels[0]) + ("}" + []);
    assert "}" + [] == "}";
    var text := Render(Braces(levels[0]));
    Associate("{", RenderAll(levels[0]) + "}", rest);
    assert s == "{" + s[1..];
    assert s == text + rest;
    assert s[..|text|] == text;
  }
}
