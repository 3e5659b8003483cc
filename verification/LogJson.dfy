/** Any operation printed as a JSON object is text that the log reader takes whole. */
module LogJson {
  import opened Sequences
  import opened Json
  import opened JsonNumbers
  import JsonRoundTrip
  import B = BalancedText

  predicate IsPlain(c: char) {
    c != '\"' && c != '{' && c != '}'
  }

  ghost predicate AllPlain(s: string) {
    forall i :: 0 <= i < |s| ==> IsPlain(s[i])
  }

  /** A text is whole when it is a row of well-formed pieces: nothing in it is left open. */
  ghost predicate Whole(text: string) {
    exists ps :: B.AllWellFormed(ps) && text == B.RenderAll(ps)
  }

  lemma {:induction false} PiecesJoin(a: seq<B.Piece>, b: seq<B.Piece>)
    requires B.AllWellFormed(a) && B.AllWellFormed(b)
    ensures B.AllWellFormed(a + b) && B.RenderAll(a + b) == B.RenderAll(a) + B.RenderAll(b)
  {
    if a == [] {
      assert a + b == b;
    } else {
      PiecesJoin(a[1..], b);
      assert (a + b)[1..] == a[1..] + b && (a + b)[0] == a[0];
      Associate(B.Render(a[0]), B.RenderAll(a[1..]), B.RenderAll(b));
    }
  }

  lemma WholeJoin(a: string, b: string)
    requires Whole(a) && Whole(b)
    ensures Whole(a + b)
  {
    var ps :| B.AllWellFormed(ps) && a == B.RenderAll(ps);
    var qs :| B.AllWellFormed(qs) && b == B.RenderAll(qs);
    PiecesJoin(ps, qs);
  }

  lemma WholePiece(p: B.Piece)
    requires B.WellFormed(p)
    ensures Whole(B.Render(p))
  {
    var ps := [p];
    assert ps[1..] == [];
    assert B.RenderAll(ps) == B.Render(p) + [];
    assert B.AllWellFormed(ps);
  }

  lemma {:induction false} WholePlain(s: string)
    requires AllPlain(s)
    ensures Whole(s)
  {
    if s == [] {
      assert B.AllWellFormed([]) && s == B.RenderAll([]);
    } else {
      WholePiece(B.Char(s[0]));
      WholePlain(s[1..]);
      WholeJoin([s[0]], s[1..]);
      assert s == [s[0]] + s[1..];
    }
  }

  lemma PlainKept(c: char, rest: string)
    requires B.IsBody(rest) && c != '\"' && c != '\\'
    ensures B.IsBody([c] + rest)
  {
  }

  lemma EscapedPairKept(c: char, rest: string)
    requires B.IsBody(rest)
    ensures B.IsBody(['\\', c] + rest)
  {
  }

  lemma ControlKept(h: char, l: char, rest: string)
    requires B.IsBody(rest) && h != '\"' && h != '\\' && l != '\"' && l != '\\'
    ensures B.IsBody("\\u00" + [h, l] + rest)
  {
    var s1 := [l] + rest;
    var s2 := [h] + s1;
    var s3 := ['0'] + s2;
    var s4 := ['0'] + s3;
    PlainKept(l, rest);
    PlainKept(h, s1);
    PlainKept('0', s2);
    PlainKept('0', s3);
    EscapedPairKept('u', s4);
    assert "\\u00" + [h, l] + rest == ['\\', 'u'] + s4;
  }

  /** An escaped character never closes the string it is in. */
  lemma EscapeKept(c: char, rest: string)
    requires B.IsBody(rest)
    ensures B.IsBody(EscapedChar(c) + rest)
  {
    var e := EscapedChar(c);
    if e == [c] {
      PlainKept(c, rest);
    } else if |e| == 2 {
      EscapedPairKept(e[1], rest);
      assert e == ['\\', e[1]];
    } else {
      ControlKept(HexDigit(c as int / 16), HexDigit(c as int % 16), rest);
    }
  }

  lemma {:induction false} EscapedKept(text: string)
    ensures B.IsBody(Escaped(text))
  {
    if text != [] {
      EscapedKept(text[1..]);
      EscapeKept(text[0], Escaped(text[1..]));
    }
  }

  lemma QuotedWhole(text: string)
    ensures Whole(Quoted(text))
  {
    EscapedKept(text);
    WholePiece(B.Text(Escaped(text)));
    Associate("\"", Escaped(text), "\"");
  }

  lemma UnsignedPlain(s: string, plus: bool)
    requires AllDigits(Unsigned(s, plus))
    ensures AllPlain(s)
  {
  }

  lemma RestPlain(s: string)
    requires s != [] && IsPlain(s[0]) && AllPlain(s[1..])
    ensures AllPlain(s)
  {
    forall k | 0 < k < |s| ensures IsPlain(s[k]) {
      assert s[1..][k - 1] == s[k];
    }
  }

  lemma PlainJoin(a: string, b: string)
    requires AllPlain(a) && AllPlain(b)
    ensures AllPlain(a + b)
  {
  }

  lemma NumberWhole(literal: string)
    requires IsNumber(literal)
    ensures Whole(literal)
  {
    var i, f, e :| literal == i + (f + e) && IsInt(i) && IsFrac(f) && IsExp(e);
    UnsignedPlain(i, false);
    if f != [] {
      UnsignedPlain(f[1..], false);
      RestPlain(f);
    }
    if e != [] {
      UnsignedPlain(e[1..], true);
      RestPlain(e);
    }
    PlainJoin(f, e);
    PlainJoin(i, f + e);
    WholePlain(literal);
  }

  lemma {:induction false} DumpWhole(v: Value)
    requires JsonRoundTrip.Valid(v)
    ensures Whole(Dump(v))
    decreases v, 1
  {
    match v
    case Null => WholePlain("null");
    case Bool(b) => WholePlain(if b then "true" else "false");
    case Number(literal) =>
      NumberOf(literal, []);
      NumberWhole(literal);
    case Str(text) => QuotedWhole(text);
    case Arr(items) =>
      if items == [] {
        WholePlain("[]");
      } else {
        DumpWhole(items[0]);
        ItemsWhole(items[1..]);
        WholePlain("[");
        WholeJoin(Dump(items[0]), ItemsTail(items[1..]));
        WholeJoin("[", Dump(items[0]) + ItemsTail(items[1..]));
      }
    case Obj(fields) =>
      ObjectWhole(fields);
      BracesWhole(Dump(v));
  }

  lemma BracesWhole(text: string)
    requires B.IsObject(text)
    ensures Whole(text)
  {
    var inner :| B.AllWellFormed(inner) && text == B.Render(B.Braces(inner));
    WholePiece(B.Braces(inner));
  }

  lemma {:induction false} ItemsWhole(items: seq<Value>)
    requires JsonRoundTrip.AllValid(items)
    ensures Whole(ItemsTail(items))
    decreases items, 0
  {
    if items == [] {
      WholePlain("]");
    } else {
      DumpWhole(items[0]);
      ItemsWhole(items[1..]);
      WholePlain(",");
      WholeJoin(Dump(items[0]), ItemsTail(items[1..]));
      WholeJoin(",", Dump(items[0]) + ItemsTail(items[1..]));
    }
  }

  /** The text of fields without the brace that closes them. */
  function FieldsOnly(fields: seq<Field>): string {
    if fields == [] then [] else "," + (DumpField(fields[0]) + FieldsOnly(fields[1..]))
  }

  lemma {:induction false} FieldsClose(fields: seq<Field>)
    ensures FieldsTail(fields) == FieldsOnly(fields) + "}"
  {
    if fields != [] {
      FieldsClose(fields[1..]);
      Associate(",", DumpField(fields[0]) + FieldsOnly(fields[1..]), "}");
      Associate(DumpField(fields[0]), FieldsOnly(fields[1..]), "}");
    }
  }

  lemma {:induction false} FieldsWhole(fields: seq<Field>)
    requires JsonRoundTrip.AllFieldsValid(fields)
    ensures Whole(FieldsOnly(fields))
    decreases fields, 0
  {
    if fields == [] {
      WholePlain([]);
    } else {
      FieldWhole(fields[0]);
      FieldsWhole(fields[1..]);
      WholePlain(",");
      WholeJoin(DumpField(fields[0]), FieldsOnly(fields[1..]));
      WholeJoin(",", DumpField(fields[0]) + FieldsOnly(fields[1..]));
    }
  }

  lemma {:induction false} FieldWhole(f: Field)
    requires JsonRoundTrip.Valid(f.value)
    ensures Whole(DumpField(f))
    decreases f, 0
  {
    DumpWhole(f.value);
    QuotedWhole(f.key);
    WholePlain(":");
    WholeJoin(":", Dump(f.value));
    WholeJoin(Quoted(f.key), ":" + Dump(f.value));
  }

  /** The printed form of a well-formed JSON object is one balanced object. */
  lemma {:induction false} ObjectWhole(fields: seq<Field>)
    requires JsonRoundTrip.Valid(Obj(fields))
    ensures B.IsObject(Dump(Obj(fields)))
    decreases fields, 1
  {
    var text: string := [];
    if fields == [] {
      WholePlain([]);
      assert Dump(Obj(fields)) == "{" + ([] + "}");
    } else {
      FieldWhole(fields[0]);
      FieldsWhole(fields[1..]);
      FieldsClose(fields[1..]);
      text := DumpField(fields[0]) + FieldsOnly(fields[1..]);
      WholeJoin(DumpField(fields[0]), FieldsOnly(fields[1..]));
      Associate(DumpField(fields[0]), FieldsOnly(fields[1..]), "}");
      assert Dump(Obj(fields)) == "{" + (text + "}");
    }
    var inner :| B.AllWellFormed(inner) && text == B.RenderAll(inner);
    assert B.Render(B.Braces(inner)) == "{" + (text + "}");
  }
}
