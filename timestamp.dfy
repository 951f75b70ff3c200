/**
 * The `Timestamp` header value: PHP's `date("D, d M Y H:i:s")` of a UTC
 * time followed by " GMT", which is the IMF-fixdate of section 7.1.1.1 of
 * RFC 7231 when the year has four digits. The clock itself is not modelled:
 * the broken-down UTC fields come in as a value.
 */
module Timestamp {
  import opened Wrappers

  /** Broken-down UTC time; `weekday` counts from 0 = Sunday, as PHP's `w` does. */
  datatype DateTime = DateTime(year: int, month: nat, day: nat, hour: nat, minute: nat, second: nat, weekday: nat)

  /** The ranges PHP's `DateTime` keeps its fields in. */
  predicate Valid(t: DateTime) {
    1 <= t.month <= 12 && 1 <= t.day <= 31 && t.hour < 24 && t.minute < 60 && t.second < 60 && t.weekday < 7
  }

  /** PHP's `D`, indexed by weekday. */
  const DayNames: seq<string> := ["Sun", "Mon", "Tue", "Wed", "Thu", "Fri", "Sat"]

  /** PHP's `M`, indexed by month - 1. */
  const MonthNames: seq<string> := ["Jan", "Feb", "Mar", "Apr", "May", "Jun", "Jul", "Aug", "Sep", "Oct", "Nov", "Dec"]

  // ------------------------------------------------------------- digits

  predicate IsDigit(c: char) { '0' <= c <= '9' }

  predicate AllDigits(s: string) { forall i :: 0 <= i < |s| ==> IsDigit(s[i]) }

  function DigitChar(d: nat): (c: char)
    requires d < 10
    ensures IsDigit(c)
  {
    ('0' as int + d) as char
  }

  function DigitValue(c: char): (d: nat)
    requires IsDigit(c)
    ensures d < 10 && DigitChar(d) == c
  {
    c as int - '0' as int
  }

  /** The number a string of decimal digits denotes. */
  function Value(s: string): nat
    requires AllDigits(s)
    decreases |s|
  {
    if |s| == 0 then 0 else 10 * Value(s[..|s| - 1]) + DigitValue(s[|s| - 1])
  }

  /** `n` in decimal without leading zeros. */
  function Decimal(n: nat): (r: string)
    ensures |r| >= 1 && AllDigits(r)
    decreases n
  {
    if n < 10 then [DigitChar(n)] else Decimal(n / 10) + [DigitChar(n % 10)]
  }

  /** `%02d` for `n < 100`. */
  function TwoDigits(n: nat): (r: string)
    requires n < 100
  {
    [DigitChar(n / 10), DigitChar(n % 10)]
  }

  /** `%04d` for `n < 10000`. */
  function FourDigits(n: nat): (r: string)
    requires n < 10000
  {
    TwoDigits(n / 100) + TwoDigits(n % 100)
  }

  /** PHP's `Y`: a `-` for years before year 0, then at least four digits. */
  function FormatYear(y: int): (r: string)
    ensures 0 <= y < 10000 ==> |r| == 4 && AllDigits(r)
    ensures '\n' !in r
  {
    var m := if y < 0 then -y else y;
    (if y < 0 then "-" else "") + (if m < 10000 then FourDigits(m) else Decimal(m))
  }

  // ------------------------------------------------------------- format

  /** `D, d M` of `t`: weekday name, comma, space, two-digit day, space, month name. */
  function DatePart(t: DateTime): (r: string)
    requires Valid(t)
    ensures |r| == 11 && '\n' !in r
  {
    DayNames[t.weekday] + ", " + TwoDigits(t.day) + " " + MonthNames[t.month - 1]
  }

  /** `H:i:s` of `t`. */
  function TimePart(t: DateTime): (r: string)
    requires Valid(t)
    ensures |r| == 8 && '\n' !in r
  {
    TwoDigits(t.hour) + ":" + TwoDigits(t.minute) + ":" + TwoDigits(t.second)
  }

  /** `date("D, d M Y H:i:s") . " GMT"` of `t`. */
  function Format(t: DateTime): (r: string)
    requires Valid(t)
    ensures '\n' !in r
  {
    DatePart(t) + " " + FormatYear(t.year) + " " + TimePart(t) + " GMT"
  }

  lemma DatePartShape(t: DateTime)
    requires Valid(t)
    ensures var d := DatePart(t);
      d[..3] == DayNames[t.weekday] && d[3..5] == ", " && d[5..7] == TwoDigits(t.day)
      && d[7] == ' ' && d[8..] == MonthNames[t.month - 1]
  {
    assert |DayNames[t.weekday]| == 3 && |MonthNames[t.month - 1]| == 3;
  }

  lemma TimePartShape(t: DateTime)
    requires Valid(t)
    ensures var h := TimePart(t);
      h[..2] == TwoDigits(t.hour) && h[2] == ':' && h[3..5] == TwoDigits(t.minute)
      && h[5] == ':' && h[6..] == TwoDigits(t.second)
  {
  }

  /** With a four-digit year, the pieces of `Format` sit at fixed offsets. */
  lemma FormatPieces(t: DateTime)
    requires Valid(t) && 0 <= t.year < 10000
    ensures var r := Format(t);
      && |r| == 29
      && r[..11] == DatePart(t) && r[11] == ' '
      && r[12..16] == FourDigits(t.year) && r[16] == ' '
      && r[17..25] == TimePart(t)
      && r[25..] == " GMT"
  {
    var d, y, h := DatePart(t), FormatYear(t.year), TimePart(t);
    assert y == FourDigits(t.year);
    var r := Format(t);
    var r1 := d + " ";
    var r2 := r1 + y;
    var r3 := r2 + " ";
    var r4 := r3 + h;
    assert r == r4 + " GMT";
    assert r[..25] == r4;
    assert r4[..17] == r3;
    assert r3[..16] == r2;
    assert r2[..12] == r1;
    assert r[..11] == r1[..11];
    assert r[12..16] == r2[12..];
    assert r[17..25] == r4[17..];
  }

  /** With a four-digit year the value is 29 characters of fixed shape: `Ddd, DD Mmm YYYY HH:MM:SS GMT`. */
  lemma FormatShape(t: DateTime)
    requires Valid(t) && 0 <= t.year < 10000
    ensures var r := Format(t);
      && |r| == 29
      && r[..3] == DayNames[t.weekday]
      && r[3..5] == ", "
      && r[5..7] == TwoDigits(t.day)
      && r[7] == ' ' && r[11] == ' ' && r[16] == ' '
      && r[8..11] == MonthNames[t.month - 1]
      && r[12..16] == FourDigits(t.year)
      && r[17..19] == TwoDigits(t.hour) && r[19] == ':'
      && r[20..22] == TwoDigits(t.minute) && r[22] == ':'
      && r[23..25] == TwoDigits(t.second)
      && r[25..] == " GMT"
  {
    var r, d, h := Format(t), DatePart(t), TimePart(t);
    FormatPieces(t);
    DatePartShape(t);
    TimePartShape(t);
    assert r[..3] == d[..3] && r[3..5] == d[3..5] && r[5..7] == d[5..7] && r[7] == d[7] && r[8..11] == d[8..];
    assert r[17..19] == h[..2] && r[19] == h[2] && r[20..22] == h[3..5] && r[22] == h[5] && r[23..25] == h[6..];
  }

  // -------------------------------------------------------------- parse

  /** Index of the first occurrence of `x` in `names`, or `|names|`. */
  function IndexOf(names: seq<string>, x: string): (r: nat)
    ensures r <= |names|
    ensures r < |names| ==> names[r] == x
    ensures r == |names| ==> x !in names
    decreases |names|
  {
    if |names| == 0 then 0
    else if names[0] == x then 0
    else 1 + IndexOf(names[1..], x)
  }

  /** The fixed characters of a four-digit-year value are where `Format` puts them. */
  predicate Punctuated(s: string) {
    && |s| == 29 && s[3..5] == ", " && s[7] == ' ' && s[11] == ' ' && s[16] == ' '
    && s[19] == ':' && s[22] == ':' && s[25..] == " GMT"
  }

  /** The day, year, hour, minute and second fields are decimal digits. */
  predicate NumericFields(s: string)
    requires |s| == 29
  {
    AllDigits(s[5..7]) && AllDigits(s[12..16]) && AllDigits(s[17..19]) && AllDigits(s[20..22]) && AllDigits(s[23..25])
  }

  /** The fields read from their fixed offsets (an unknown name reads as an out-of-range index). */
  function Fields(s: string): DateTime
    requires |s| == 29 && NumericFields(s)
  {
    DateTime(Value(s[12..16]), IndexOf(MonthNames, s[8..11]) + 1, Value(s[5..7]),
             Value(s[17..19]), Value(s[20..22]), Value(s[23..25]), IndexOf(DayNames, s[..3]))
  }

  /** Reads back a 29-character IMF-fixdate; None for anything `Format` does not produce. */
  function Parse(s: string): Option<DateTime> {
    if Punctuated(s) && NumericFields(s) && Valid(Fields(s)) then Some(Fields(s)) else None
  }

  /** No name occurs twice. */
  predicate Distinct(names: seq<string>) {
    forall i, j :: 0 <= i < j < |names| ==> names[i] != names[j]
  }

  /** In a list without repeats, looking a name up gives back its index. */
  lemma {:induction false} IndexOfDistinct(names: seq<string>, m: nat)
    requires Distinct(names) && m < |names|
    ensures IndexOf(names, names[m]) == m
    decreases m
  {
    if m > 0 {
      assert names[0] != names[m];
      assert names[1..][m - 1] == names[m];
      IndexOfDistinct(names[1..], m - 1);
    }
  }

  lemma NamesDistinct()
    ensures Distinct(DayNames) && Distinct(MonthNames)
  {
  }

  /** A 29-character string is the concatenation of its field slices. */
  lemma Decompose(s: string)
    requires |s| == 29
    ensures s == s[..3] + s[3..5] + s[5..7] + [s[7]] + s[8..11] + [s[11]] + s[12..16] + [s[16]]
                 + s[17..19] + [s[19]] + s[20..22] + [s[22]] + s[23..25] + s[25..]
  {
  }

  lemma ValueOfTwo(s: string)
    requires |s| == 2 && AllDigits(s)
    ensures Value(s) == 10 * DigitValue(s[0]) + DigitValue(s[1])
  {
    assert s[..1][..0] == [];
    assert Value(s[..1]) == DigitValue(s[0]);
  }

  lemma ValueOfFour(s: string)
    requires |s| == 4 && AllDigits(s)
    ensures AllDigits(s[..2]) && AllDigits(s[2..])
    ensures Value(s) == 100 * Value(s[..2]) + Value(s[2..])
  {
    var a, b := s[..2], s[2..];
    assert s[..3] == a + [s[2]];
    assert s[..3][..2] == a;
    assert Value(s[..3]) == 10 * Value(a) + DigitValue(s[2]);
    ValueOfTwo(b);
  }

  lemma TwoDigitsValue(n: nat)
    requires n < 100
    ensures AllDigits(TwoDigits(n)) && Value(TwoDigits(n)) == n
  {
    ValueOfTwo(TwoDigits(n));
  }

  lemma FourDigitsValue(n: nat)
    requires n < 10000
    ensures AllDigits(FourDigits(n)) && Value(FourDigits(n)) == n
  {
    var s := FourDigits(n);
    TwoDigitsValue(n / 100);
    TwoDigitsValue(n % 100);
    assert s[..2] == TwoDigits(n / 100) && s[2..] == TwoDigits(n % 100);
    ValueOfFour(s);
  }

  lemma ValueTwoDigits(s: string)
    requires |s| == 2 && AllDigits(s)
    ensures Value(s) < 100 && TwoDigits(Value(s)) == s
  {
    ValueOfTwo(s);
  }

  lemma ValueFourDigits(s: string)
    requires |s| == 4 && AllDigits(s)
    ensures Value(s) < 10000 && FourDigits(Value(s)) == s
  {
    ValueOfFour(s);
    ValueTwoDigits(s[..2]);
    ValueTwoDigits(s[2..]);
    var hi, lo := Value(s[..2]), Value(s[2..]);
    assert (100 * hi + lo) / 100 == hi && (100 * hi + lo) % 100 == lo;
    assert s == s[..2] + s[2..];
  }

  /** Reading back a formatted four-digit-year time gives the time. */
  lemma ParseFormat(t: DateTime)
    requires Valid(t) && 0 <= t.year < 10000
    ensures Parse(Format(t)) == Some(t)
  {
    var r := Format(t);
    FormatShape(t);
    TwoDigitsValue(t.day);
    TwoDigitsValue(t.hour);
    TwoDigitsValue(t.minute);
    TwoDigitsValue(t.second);
    FourDigitsValue(t.year);
    assert Punctuated(r);
    assert NumericFields(r);
    NamesDistinct();
    IndexOfDistinct(DayNames, t.weekday);
    IndexOfDistinct(MonthNames, t.month - 1);
    assert Fields(r) == t;
  }

  /** Everything `Parse` accepts is exactly the formatting of what it returns. */
  lemma FormatParse(s: string)
    requires Parse(s).Some?
    ensures var t := Parse(s).value; Valid(t) && 0 <= t.year < 10000 && Format(t) == s
  {
    var t := Parse(s).value;
    assert t == Fields(s);
    ValueTwoDigits(s[5..7]);
    ValueTwoDigits(s[17..19]);
    ValueTwoDigits(s[20..22]);
    ValueTwoDigits(s[23..25]);
    ValueFourDigits(s[12..16]);
    var r := Format(t);
    FormatShape(t);
    Decompose(r);
    Decompose(s);
  }
}
