/** Reading and setting parts of a JSON value: object fields in insertion order, and 64-bit integers. */
module JsonAccess {
  import opened Sequences
  import opened Options
  import opened Json
  import opened JsonNumbers
  import JsonRoundTrip

  // ---- Fields ----------------------------------------------------------------------

  /** The value of the first field with that key. */
  function Find(fields: seq<Field>, key: string): Option<Value> {
    if fields == [] then None
    else if fields[0].key == key then Some(fields[0].value)
    else Find(fields[1..], key)
  }

  function Keys(fields: seq<Field>): seq<string> {
    if fields == [] then [] else [fields[0].key] + Keys(fields[1..])
  }

  /** Replaces the value of the first field with that key, or adds a field at the end. */
  function WithField(fields: seq<Field>, key: string, value: Value): (r: seq<Field>) {
    if fields == [] then [Field(key, value)]
    else if fields[0].key == key then [Field(key, value)] + fields[1..]
    else [fields[0]] + WithField(fields[1..], key, value)
  }

  lemma Split<T>(s: seq<T>, i: nat)
    requires i < |s|
    ensures s[..i] + [s[i]] == s[..i + 1] && s[i..][1..] == s[i + 1..] && s[i..][0] == s[i]
    ensures forall x :: s[i := x] == s[..i] + ([x] + s[i + 1..])
  {
  }

  method Set(fields: seq<Field>, key: string, value: Value) returns (out: seq<Field>)
    ensures out == WithField(fields, key, value)
  {
    ghost var whole := WithField(fields, key, value);
    assert fields[..0] == [] && fields[0..] == fields;
    assert [] + whole == whole;
    var i := 0;
    while i < |fields|
      invariant 0 <= i <= |fields|
      invariant fields[..i] + WithField(fields[i..], key, value) == whole
    {
      Split(fields, i);
      if fields[i].key == key {
        return fields[i := Field(key, value)];
      }
      Associate(fields[..i], [fields[i]], WithField(fields[i + 1..], key, value));
      i := i + 1;
    }
    assert fields[..i] == fields && fields[i..] == [];
    out := fields + [Field(key, value)];
  }

  /** Setting a key makes it read back, leaves every other key alone and keeps the order of the fields. */
  lemma {:induction false} SetThenFind(fields: seq<Field>, key: string, value: Value, other: string)
    ensures Find(WithField(fields, key, value), other) == if other == key then Some(value) else Find(fields, other)
    ensures Keys(WithField(fields, key, value)) == Keys(fields) + if Find(fields, key).None? then [key] else []
  {
    var r := WithField(fields, key, value);
    if fields == [] {
      assert r[1..] == [];
    } else if fields[0].key == key {
      assert r[1..] == fields[1..];
      assert Keys(fields) + [] == Keys(fields);
    } else {
      assert r[1..] == WithField(fields[1..], key, value);
      SetThenFind(fields[1..], key, value, other);
      Associate([fields[0].key], Keys(fields[1..]), if Find(fields, key).None? then [key] else []);
    }
  }

  /** An object built with Set never repeats a key. */
  lemma {:induction false} SetKeepsKeysDistinct(fields: seq<Field>, key: string, value: Value)
    requires JsonRoundTrip.DistinctKeys(fields)
    ensures JsonRoundTrip.DistinctKeys(WithField(fields, key, value))
    ensures forall i :: 0 <= i < |WithField(fields, key, value)| ==>
              WithField(fields, key, value)[i].key == key || HasKey(fields, WithField(fields, key, value)[i].key)
  {
    if fields == [] {
    } else if fields[0].key == key {
      var r := WithField(fields, key, value);
      forall i | 0 <= i < |r| ensures r[i].key == fields[i].key {
      }
    } else {
      var rest, r := WithField(fields[1..], key, value), WithField(fields, key, value);
      SetKeepsKeysDistinct(fields[1..], key, value);
      forall i | 0 < i < |r| ensures r[i].key != fields[0].key && (r[i].key == key || HasKey(fields, r[i].key)) {
        assert r[i] == rest[i - 1];
        if r[i].key != key {
          var j :| 0 <= j < |fields[1..]| && fields[1..][j].key == r[i].key;
          assert fields[j + 1].key == r[i].key;
        }
      }
      forall i, j | 0 <= i < j < |r| ensures r[i].key != r[j].key {
        if i > 0 {
          assert r[i] == rest[i - 1] && r[j] == rest[j - 1];
        }
      }
    }
  }

  // ---- Integers ----------------------------------------------------------------------

  const INT64_MIN: int := -0x8000_0000_0000_0000
  const INT64_MAX: int := 0x7FFF_FFFF_FFFF_FFFF

  function DecimalText(n: nat): string {
    if n < 10 then [('0' as int + n) as char] else DecimalText(n / 10) + [('0' as int + n % 10) as char]
  }

  /** The literal that an integer is stored as. */
  function MakeInt(n: int): string {
    if n < 0 then "-" + DecimalText(-n) else DecimalText(n)
  }

  function SignedValue(literal: string): int {
    if At(literal, '-') then 0 - DecimalValue(literal[1..]) else DecimalValue(literal)
  }

  /** An optional minus and at least one digit: no fraction, no exponent, no other sign. */
  ghost predicate IsIntegerText(literal: string) {
    var d := Unsigned(literal, false);
    d != [] && AllDigits(d)
  }

  /** The literal as a 64-bit integer, when it is written as one and fits. */
  method AsInt64(literal: string) returns (r: Option<int>)
    ensures r == if IsIntegerText(literal) && INT64_MIN <= SignedValue(literal) <= INT64_MAX
                 then Some(SignedValue(literal)) else None
  {
    if literal == "" {
      return None;
    }
    var start := if literal[0] == '-' then 1 else 0;
    var index := start;
    while index < |literal|
      invariant start <= index <= |literal|
      invariant forall k :: start <= k < index ==> IsDigit(literal[k])
    {
      if !IsDigit(literal[index]) {
        assert literal[start..][index - start] == literal[index];
        return None;
      }
      index := index + 1;
    }
    if literal == "-" {
      return None;
    }
    var parsed := SignedValue(literal);
    if parsed < INT64_MIN || parsed > INT64_MAX {
      return None;
    }
    return Some(parsed);
  }

  lemma {:induction false} DecimalBack(n: nat)
    ensures DecimalText(n) != [] && AllDigits(DecimalText(n)) && DecimalValue(DecimalText(n)) == n
    ensures DecimalText(n)[0] == '0' ==> n == 0
  {
    var t := DecimalText(n);
    if n < 10 {
      assert t[..|t| - 1] == [];
    } else {
      DecimalBack(n / 10);
      assert t[..|t| - 1] == DecimalText(n / 10);
    }
  }

  /** Every integer is stored as a literal of the JSON grammar that reads back as that integer, with a minus only below zero. */
  lemma IntegerBack(n: int)
    ensures IsNumber(MakeInt(n)) && IsIntegerText(MakeInt(n)) && SignedValue(MakeInt(n)) == n
    ensures At(MakeInt(n), '-') <==> n < 0
  {
    var magnitude := if n < 0 then -n else n;
    DecimalBack(magnitude);
    var d, literal := DecimalText(magnitude), MakeInt(n);
    if n < 0 {
      assert literal[1..] == d;
    }
    assert magnitude == 0 ==> d == "0";
    assert IsInt(literal) && IsFrac([]) && IsExp([]);
    assert literal == literal + ([] + []);
  }
}
