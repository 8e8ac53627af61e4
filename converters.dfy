/** Room type converters: a list of Longs stored as comma-separated text, and an
    Instant stored as epoch milliseconds. */
module Converters {
  import opened Common

  // ---------------------------------------------------------------------------
  // Decimal text of a Long (Long.toString) and its parser (String.toLong)
  // ---------------------------------------------------------------------------

  predicate IsDigit(c: char) {
    '0' <= c <= '9'
  }

  function DigitValue(c: char): (d: nat)
    requires IsDigit(c)
    ensures d < 10
  {
    c as int - '0' as int
  }

  function DigitChar(d: nat): (c: char)
    requires d < 10
    ensures IsDigit(c) && DigitValue(c) == d
  {
    ('0' as int + d) as char
  }

  predicate AllDigits(s: string) {
    forall i :: 0 <= i < |s| ==> IsDigit(s[i])
  }

  /** The decimal digits of `n`, most significant first, without leading zeros. */
  function Decimal(n: nat): (s: string)
    ensures 1 <= |s| && AllDigits(s)
  {
    if n < 10 then [DigitChar(n)] else Decimal(n / 10) + [DigitChar(n % 10)]
  }

  /** The number a string of decimal digits denotes (leading zeros allowed). */
  function DecimalValue(s: string): nat
    requires AllDigits(s)
  {
    if s == [] then 0 else 10 * DecimalValue(s[..|s| - 1]) + DigitValue(s[|s| - 1])
  }

  lemma {:induction false} DecimalValueOfDecimal(n: nat)
    ensures DecimalValue(Decimal(n)) == n
  {
    if n >= 10 {
      var s := Decimal(n);
      assert s[..|s| - 1] == Decimal(n / 10);
      DecimalValueOfDecimal(n / 10);
    }
  }

  /** Long.toString(): a minus sign for negative values, then the digits. */
  function LongToString(x: Long): (s: string)
    ensures ',' !in s
  {
    if x < 0 then "-" + Decimal(-(x as int)) else Decimal(x)
  }

  /** String.toLong(), i.e. java.lang.Long.parseLong: an optional leading '-' or '+',
      at least one digit, and a value inside the Long range; anything else raises
      NumberFormatException, modelled as None. */
  function ParseLong(s: string): (r: Option<Long>)
    ensures r.Some? ==> |s| >= 1 && ',' !in s
  {
    if |s| == 0 then None
    else
      var digits := if s[0] == '-' || s[0] == '+' then s[1..] else s;
      if |digits| == 0 || !AllDigits(digits) then None
      else
        var magnitude := DecimalValue(digits);
        var value: int := if s[0] == '-' then -(magnitude as int) else magnitude;
        if LONG_MIN <= value <= LONG_MAX then Some(value) else None
  }

  /** Parsing the decimal text of a Long gives the Long back. */
  lemma ParseLongToString(x: Long)
    ensures ParseLong(LongToString(x)) == Some(x)
  {
    var s := LongToString(x);
    if x < 0 {
      assert s[0] == '-' && s[1..] == Decimal(-(x as int));
      DecimalValueOfDecimal(-(x as int));
    } else {
      assert IsDigit(s[0]);
      DecimalValueOfDecimal(x);
    }
  }

  // ---------------------------------------------------------------------------
  // Splitting and joining on commas
  // ---------------------------------------------------------------------------

  /** String.split(","): the fields between commas, empty ones included; there is
      always at least one field. */
  function Split(s: string): (fields: seq<string>)
    ensures |fields| >= 1
    ensures forall i :: 0 <= i < |fields| ==> ',' !in fields[i]
  {
    if s == [] then [""]
    else
      var rest := Split(s[1..]);
      if s[0] == ',' then [""] + rest else [[s[0]] + rest[0]] + rest[1..]
  }

  /** joinToString(","): the fields with one comma between neighbours. */
  function Join(fields: seq<string>): string {
    if fields == [] then ""
    else if |fields| == 1 then fields[0]
    else fields[0] + "," + Join(fields[1..])
  }

  lemma {:induction false} SplitCommaFree(a: string, tail: string)
    requires ',' !in a
    ensures Split(a + tail) == [a + Split(tail)[0]] + Split(tail)[1..]
  {
    var rest := Split(tail);
    if a == [] {
      assert a + tail == tail;
      assert a + rest[0] == rest[0];
      assert rest == [rest[0]] + rest[1..];
    } else {
      assert (a + tail)[1..] == a[1..] + tail;
      SplitCommaFree(a[1..], tail);
      assert [a[0]] + (a[1..] + Split(tail)[0]) == a + Split(tail)[0];
    }
  }

  /** Splitting text joined from comma-free fields gives the fields back. */
  lemma {:induction false} SplitJoin(fields: seq<string>)
    requires |fields| >= 1
    requires forall i :: 0 <= i < |fields| ==> ',' !in fields[i]
    ensures Split(Join(fields)) == fields
  {
    if |fields| == 1 {
      SplitCommaFree(fields[0], "");
      assert fields[0] + "" == fields[0];
    } else {
      var rest := fields[1..];
      SplitJoin(rest);
      var tail := "," + Join(rest);
      assert fields[0] + "," + Join(rest) == fields[0] + tail;
      SplitCommaFree(fields[0], tail);
      assert tail[0] == ',' && tail[1..] == Join(rest);
      assert Split(tail) == [""] + rest;
      assert fields[0] + "" == fields[0];
      assert fields == [fields[0]] + rest;
    }
  }

  function CommaCount(s: string): nat {
    multiset(s)[',']
  }

  lemma {:induction false} JoinCommaCount(fields: seq<string>)
    requires |fields| >= 1
    requires forall i :: 0 <= i < |fields| ==> ',' !in fields[i]
    ensures CommaCount(Join(fields)) == |fields| - 1
  {
    if |fields| > 1 {
      JoinCommaCount(fields[1..]);
      assert multiset(fields[0] + "," + Join(fields[1..]))
          == multiset(fields[0]) + multiset{','} + multiset(Join(fields[1..]));
    }
  }

  // ---------------------------------------------------------------------------
  // CsvListConverter
  // ---------------------------------------------------------------------------

  /** map { toLong() or null } followed by filterNotNull(): the fields that parse,
      in order; a field that does not parse is dropped. */
  function ParsedFields(fields: seq<string>): (r: seq<Long>)
    ensures |r| <= |fields|
  {
    if fields == [] then []
    else
      (match ParseLong(fields[0]) case Some(v) => [v] case None => []) + ParsedFields(fields[1..])
  }

  /** CsvListConverter.csvToList. */
  function CsvToList(data: Option<string>): (r: Option<seq<Long>>)
    ensures r.None? <==> data.None?
    ensures data.Some? ==> |r.value| <= |Split(data.value)|
  {
    match data
    case None => None
    case Some(s) => Some(ParsedFields(Split(s)))
  }

  /** CsvListConverter.listToCsv. */
  function ListToCsv(list: Option<seq<Long>>): (r: Option<string>)
    ensures r.None? <==> list.None?
  {
    match list
    case None => None
    case Some(xs) => Some(Join(Map(xs, LongToString)))
  }

  /** Dropping is all that happens to a field: the fields before and after it
      contribute exactly as they would on their own, in order. */
  lemma {:induction false} ParsedFieldsAppend(a: seq<string>, b: seq<string>)
    ensures ParsedFields(a + b) == ParsedFields(a) + ParsedFields(b)
  {
    if a == [] {
      assert a + b == b;
    } else {
      assert (a + b)[0] == a[0];
      assert (a + b)[1..] == a[1..] + b;
      ParsedFieldsAppend(a[1..], b);
    }
  }

  /** Every field is either kept as its parsed value or dropped, never failing the
      whole conversion: the output is exactly as long as the number of fields that
      parse. */
  lemma {:induction false} ParsedFieldsCount(fields: seq<string>)
    ensures |ParsedFields(fields)| == |Filter(fields, (f: string) => ParseLong(f).Some?)|
  {
    if fields != [] {
      ParsedFieldsCount(fields[1..]);
    }
  }

  lemma {:induction false} ParsedFieldsOfDecimals(xs: seq<Long>)
    ensures ParsedFields(Map(xs, LongToString)) == xs
  {
    if xs != [] {
      ParseLongToString(xs[0]);
      assert Map(xs, LongToString)[1..] == Map(xs[1..], LongToString);
      ParsedFieldsOfDecimals(xs[1..]);
    }
  }

  /** Round trip: a stored list of Longs reads back unchanged, the empty list included. */
  lemma CsvRoundTrip(xs: seq<Long>)
    ensures CsvToList(ListToCsv(Some(xs))) == Some(xs)
  {
    var fields := Map(xs, LongToString);
    if xs == [] {
      assert Join(fields) == "";
      assert Split("") == [""];
      assert ParseLong("") == None;
    } else {
      SplitJoin(fields);
      ParsedFieldsOfDecimals(xs);
    }
  }

  /** listToCsv of n >= 1 values has exactly n - 1 commas. */
  lemma ListToCsvCommas(xs: seq<Long>)
    requires |xs| >= 1
    ensures CommaCount(ListToCsv(Some(xs)).value) == |xs| - 1
  {
    JoinCommaCount(Map(xs, LongToString));
  }

  // ---------------------------------------------------------------------------
  // InstantConverters
  // ---------------------------------------------------------------------------

  const MILLIS_PER_SECOND: int := 1000
  const NANOS_PER_MILLI: int := 1_000_000
  const NANOS_PER_SECOND: int := 1_000_000_000

  /** java.time.Instant: seconds from the epoch and a nanosecond adjustment. */
  datatype Instant = Instant(seconds: int, nanos: int)

  predicate ValidInstant(i: Instant) {
    0 <= i.nanos < NANOS_PER_SECOND
  }

  /** Instant.ofEpochMilli: floorDiv and floorMod by 1000 (Dafny's / and % agree
      with them for a positive divisor). */
  function OfEpochMilli(ms: Long): (i: Instant)
    ensures ValidInstant(i) && i.nanos % NANOS_PER_MILLI == 0
  {
    Instant(ms / MILLIS_PER_SECOND, (ms % MILLIS_PER_SECOND) * NANOS_PER_MILLI)
  }

  /** Instant.toEpochMilli before its overflow checks. */
  function EpochMilli(i: Instant): int {
    if i.seconds < 0 && i.nanos > 0 then
      (i.seconds + 1) * MILLIS_PER_SECOND + (i.nanos / NANOS_PER_MILLI - MILLIS_PER_SECOND)
    else
      i.seconds * MILLIS_PER_SECOND + i.nanos / NANOS_PER_MILLI
  }

  /** toEpochMilli raises ArithmeticException unless its intermediate product and
      its result are Longs. */
  predicate EpochMilliFits(i: Instant) {
    var product := if i.seconds < 0 && i.nanos > 0 then (i.seconds + 1) * MILLIS_PER_SECOND
                   else i.seconds * MILLIS_PER_SECOND;
    LONG_MIN <= product <= LONG_MAX && LONG_MIN <= EpochMilli(i) <= LONG_MAX
  }

  /** InstantConverters.longToInstant. */
  function LongToInstant(value: Option<Long>): (r: Option<Instant>)
    ensures r.None? <==> value.None?
  {
    match value
    case None => None
    case Some(ms) => Some(OfEpochMilli(ms))
  }

  /** InstantConverters.instantToLong. */
  function InstantToLong(instant: Option<Instant>): (r: Option<Long>)
    requires instant.Some? ==> ValidInstant(instant.value) && EpochMilliFits(instant.value)
    ensures r.None? <==> instant.None?
  {
    match instant
    case None => None
    case Some(i) => Some(EpochMilli(i))
  }

  /** The instant `i` with its sub-millisecond part dropped. */
  function TruncatedToMillis(i: Instant): Instant {
    Instant(i.seconds, i.nanos - i.nanos % NANOS_PER_MILLI)
  }

  /** Epoch milliseconds survive a trip through Instant. */
  lemma MillisRoundTrip(ms: Long)
    ensures EpochMilliFits(OfEpochMilli(ms))
    ensures InstantToLong(LongToInstant(Some(ms))) == Some(ms)
  {
    var i := OfEpochMilli(ms);
    assert ms == i.seconds * MILLIS_PER_SECOND + ms % MILLIS_PER_SECOND;
    assert i.nanos / NANOS_PER_MILLI == ms % MILLIS_PER_SECOND;
  }

  /** An Instant stored and read back loses exactly its sub-millisecond part. */
  lemma InstantRoundTrip(i: Instant)
    requires ValidInstant(i) && EpochMilliFits(i)
    ensures LongToInstant(InstantToLong(Some(i))) == Some(TruncatedToMillis(i))
  {
    var ms := EpochMilli(i);
    var q := i.nanos / NANOS_PER_MILLI;
    assert 0 <= q < MILLIS_PER_SECOND;
    assert ms == i.seconds * MILLIS_PER_SECOND + q;
    assert ms / MILLIS_PER_SECOND == i.seconds;
    assert ms % MILLIS_PER_SECOND == q;
    assert q * NANOS_PER_MILLI == i.nanos - i.nanos % NANOS_PER_MILLI;
  }
}
