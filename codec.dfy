/** Decimal rendering and parsing of Kotlin integers, and the field codec that
    stands in for the JSON text the cache and the event topic carry. */
module Codec {
  import opened Wrappers

  const MIN_LONG: int := -0x8000_0000_0000_0000
  const MAX_LONG: int := 0x7FFF_FFFF_FFFF_FFFF
  const MIN_INT: int := -0x8000_0000
  const MAX_INT: int := 0x7FFF_FFFF

  /** Kotlin's Long (64-bit) and Int (32-bit). */
  type Long = x: int | MIN_LONG <= x <= MAX_LONG
  type Int32 = x: int | MIN_INT <= x <= MAX_INT

  predicate IsDigit(c: char) { '0' <= c <= '9' }

  predicate AllDigits(s: string) { forall i :: 0 <= i < |s| ==> IsDigit(s[i]) }

  function DigitChar(d: nat): (c: char)
    requires d < 10
    ensures IsDigit(c)
  {
    ('0' as int + d) as char
  }

  function DigitValue(c: char): (d: nat)
    requires IsDigit(c)
    ensures d < 10
  {
    c as int - '0' as int
  }

  /** The decimal digits of n, most significant first, without leading zeros. */
  function Digits(n: nat): (s: string)
    ensures |s| >= 1 && AllDigits(s)
  {
    if n < 10 then [DigitChar(n)] else Digits(n / 10) + [DigitChar(n % 10)]
  }

  /** The number a string of decimal digits denotes (the empty string reads as 0). */
  function ValueOf(s: string): nat
    requires AllDigits(s)
  {
    if s == [] then 0 else ValueOf(s[..|s| - 1]) * 10 + DigitValue(s[|s| - 1])
  }

  lemma {:induction false} ValueOfDigits(n: nat)
    ensures ValueOf(Digits(n)) == n
  {
    var s := Digits(n);
    if n >= 10 {
      assert s[..|s| - 1] == Digits(n / 10);
      ValueOfDigits(n / 10);
    }
  }

  /** Long.toString: a minus sign for negative values, then the digits of the magnitude. */
  function LongToString(n: int): (s: string)
    ensures |s| >= 1 && (IsDigit(s[0]) || s[0] == '-')
  {
    if n < 0 then "-" + Digits(-n) else Digits(n)
  }

  /** String.toLong and String.toInt (java.lang.Long.parseLong and Integer.parseInt):
      an optional '+' or '-', then one or more decimal digits whose value lies in
      [lo, hi]; every other text fails with a NumberFormatException, here None. */
  function ParseInRange(s: string, lo: int, hi: int): (r: Option<int>)
    ensures r.Some? ==> lo <= r.value <= hi
  {
    if |s| == 0 then None
    else
      var body := if s[0] == '-' || s[0] == '+' then s[1..] else s;
      if |body| == 0 || !AllDigits(body) then None
      else
        var magnitude: int := ValueOf(body);
        var v := if s[0] == '-' then -magnitude else magnitude;
        if lo <= v <= hi then Some(v) else None
  }

  /** A plain decimal within the Long range parses to its value; empty text, and
      text that starts with anything but a sign or a digit, is refused. */
  function ParseLong(s: string): (r: Option<Long>)
    ensures |s| >= 1 && AllDigits(s) && ValueOf(s) <= MAX_LONG ==> r == Some(ValueOf(s))
    ensures s == [] || (!IsDigit(s[0]) && s[0] != '-' && s[0] != '+') ==> r.None?
  {
    match ParseInRange(s, MIN_LONG, MAX_LONG)
    case None => None
    case Some(v) => Some(v)
  }

  function ParseInt(s: string): (r: Option<Int32>)
  {
    match ParseInRange(s, MIN_INT, MAX_INT)
    case None => None
    case Some(v) => Some(v)
  }

  /** Parsing reads back every value that toString renders, over the whole range. */
  lemma ParseLongToString(n: int, lo: int, hi: int)
    requires lo <= n <= hi
    ensures ParseInRange(LongToString(n), lo, hi) == Some(n)
  {
    var s := LongToString(n);
    if n < 0 {
      assert s[1..] == Digits(-n);
      ValueOfDigits(-n);
    } else {
      ValueOfDigits(n);
    }
  }

  lemma LongRoundTrip(n: Long)
    ensures ParseLong(LongToString(n)) == Some(n)
  {
    ParseLongToString(n, MIN_LONG, MAX_LONG);
  }

  lemma IntRoundTrip(n: Int32)
    ensures ParseInt(LongToString(n)) == Some(n)
  {
    ParseLongToString(n, MIN_INT, MAX_INT);
  }

  /** Two values render alike only when they are equal. */
  lemma LongToStringInjective(a: int, b: int)
    requires LongToString(a) == LongToString(b)
    ensures a == b
  {
    var lo := if a < b then a else b;
    var hi := if a < b then b else a;
    ParseLongToString(a, lo, hi);
    ParseLongToString(b, lo, hi);
  }

  /** One length-prefixed field: the decimal length, a colon, then the text itself. */
  function Field(text: string): string
  {
    Digits(|text|) + ":" + text
  }

  function EncodeFields(fields: seq<string>): string
  {
    if fields == [] then "" else Field(fields[0]) + EncodeFields(fields[1..])
  }

  /** The position of the first colon in s, if there is one. */
  function ColonIndex(s: string): (r: Option<nat>)
    ensures r.Some? ==> r.value < |s| && s[r.value] == ':'
    ensures r.Some? ==> forall j :: 0 <= j < r.value ==> s[j] != ':'
    ensures r.None? ==> forall j :: 0 <= j < |s| ==> s[j] != ':'
  {
    if s == [] then None
    else if s[0] == ':' then Some(0)
    else
      match ColonIndex(s[1..])
      case None => None
      case Some(k) => Some(k + 1)
  }

  /** Reads one field off the front of s, giving its text and what follows it. */
  function ReadField(s: string): Option<(string, string)>
  {
    match ColonIndex(s)
    case None => None
    case Some(i) =>
      var prefix := s[..i];
      if |prefix| == 0 || !AllDigits(prefix) then None
      else
        var n := ValueOf(prefix);
        if i + 1 + n <= |s| then Some((s[i + 1..i + 1 + n], s[i + 1 + n..])) else None
  }

  /** Reads exactly count fields and requires that nothing follows them. */
  function ReadFields(s: string, count: nat): (r: Option<seq<string>>)
    ensures r.Some? ==> |r.value| == count
  {
    if count == 0 then
      if s == "" then Some([]) else None
    else
      match ReadField(s)
      case None => None
      case Some((text, rest)) =>
        match ReadFields(rest, count - 1)
        case None => None
        case Some(more) => Some([text] + more)
  }

  lemma ReadFieldOfField(text: string, rest: string)
    ensures ReadField(Field(text) + rest) == Some((text, rest))
  {
    var d := Digits(|text|);
    var s := Field(text) + rest;
    assert s == d + ([':'] + (text + rest));
    assert s[|d|] == ':';
    assert forall j :: 0 <= j < |d| ==> s[j] == d[j] && s[j] != ':';
    var c := ColonIndex(s);
    assert c == Some(|d|);
    assert s[..|d|] == d;
    ValueOfDigits(|text|);
    assert s[|d| + 1..|d| + 1 + |text|] == text;
    assert s[|d| + 1 + |text|..] == rest;
  }

  /** Every list of fields reads back from its encoding. */
  lemma {:induction false} FieldsRoundTrip(fields: seq<string>)
    ensures ReadFields(EncodeFields(fields), |fields|) == Some(fields)
  {
    if fields != [] {
      var rest := EncodeFields(fields[1..]);
      ReadFieldOfField(fields[0], rest);
      FieldsRoundTrip(fields[1..]);
      assert [fields[0]] + fields[1..] == fields;
    }
  }
}
