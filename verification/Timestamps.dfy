/**
 The connector's hand-written RFC 3339 reader (section 5.6 of RFC 3339) and the printer that its tests
 keep beside it, on whole seconds since the epoch.
 */
module Timestamps {
  import opened Options
  import opened Text
  import opened Calendar
  import opened Literals

  /** Seconds that a SystemTime can hold. */
  const MAX_SECONDS: int := 0x7fff_ffff_ffff_ffff

  /** The first second whose year no longer fits the printer's i32. */
  const FIRST_WRAPPED: int := 784351576777 * 86400

  /** Rust's `as i32`. */
  function AsI32(n: int): int {
    var w := n % 0x1_0000_0000;
    if w < 0x8000_0000 then w else w - 0x1_0000_0000
  }

  function DateText(y: int, m: int, d: int): string {
    Padded(y, 4) + "-" + Padded(m, 2) + "-" + Padded(d, 2)
  }

  function ClockText(h: int, min: int, s: int): string {
    Padded(h, 2) + ":" + Padded(min, 2) + ":" + Padded(s, 2)
  }

  function Format(t: nat): string {
    var (y, m, d) := CivilFromDays(t / 86400);
    var rem := t % 86400;
    DateText(AsI32(y), m, d) + "T" + ClockText(rem / 3600, rem % 3600 / 60, rem % 60) + "Z"
  }

  function Seconds(y: int, m: int, d: int, h: int, min: int, s: int): Option<nat> {
    var secs := DaysFromCivil(y, m, d) * 86400 + h * 3600 + min * 60 + s;
    if secs < 0 then None else Some(secs)
  }

  function FromFields(y: string, m: string, d: string, h: string, min: string, s: string): Option<nat> {
    var year :- ParseI64(y);
    var month :- ParseI64(m);
    var day :- ParseI64(d);
    var hour :- ParseI64(h);
    var minute :- ParseI64(min);
    var sec :- ParseI64(s);
    Seconds(year, month, day, hour, minute, sec)
  }

  function ReadParts(date: seq<string>, time: seq<string>): Option<nat> {
    if |date| < 3 || |time| < 3 then None
    else FromFields(date[0], date[1], date[2], time[0], time[1], Split(time[2], '.')[0])
  }

  function Parse(text: string): Option<nat> {
    var s := TrimSuffix(TrimSuffix(Trim(text), "Z"), "+00:00");
    var t := Find(s, 'T');
    if t == |s| then None else ReadParts(Split(s[..t], '-'), Split(s[t + 1..], ':'))
  }

  lemma TrimNothing(s: string)
    requires s != "" && !IsSpace(s[0]) && !IsSpace(s[|s| - 1])
    ensures Trim(s) == s
  {
  }

  /** Digits contain none of the characters the reader cuts at. */
  lemma DigitsArePlain(s: string)
    requires AllDigits(s)
    ensures 'T' !in s && '-' !in s && ':' !in s && '.' !in s && '+' !in s
  {
  }

  lemma SplitThree(a: string, b: string, c: string, sep: char)
    requires sep !in a && sep !in b && sep !in c
    ensures Split(a + [sep] + b + [sep] + c, sep) == [a, b, c]
  {
    SplitFirst(a, sep, b + [sep] + c);
    assert a + [sep] + b + [sep] + c == a + [sep] + (b + [sep] + c);
    SplitFirst(b, sep, c);
    SplitWhole(c, sep);
  }

  /** The two suffix checks leave a text with no '+' near its end, and the 'T' is found. */
  lemma HeadAndClock(date: string, clock: string)
    requires date != "" && !IsSpace(date[0]) && 'T' !in date && '+' !in clock && |clock| >= 6
    ensures var s := TrimSuffix(TrimSuffix(Trim(date + "T" + clock + "Z"), "Z"), "+00:00");
            var t := Find(s, 'T');
            t < |s| && s[..t] == date && s[t + 1..] == clock
  {
    var s := date + "T" + clock + "Z";
    TrimNothing(s);
    var u := date + "T" + clock;
    assert s[..|s| - 1] == u && s[|s| - 1..] == "Z";
    var tail := u[|u| - 6..];
    assert tail[0] in clock;
    assert tail != "+00:00";
    FindFirst(date, 'T', clock);
    assert u == date + ['T'] + clock;
  }

  /** Reading six runs of digits put together the way the printer does. */
  lemma ReadsPieces(y: string, m: string, d: string, h: string, min: string, s: string)
    requires AllDigits(y) && AllDigits(m) && AllDigits(d) && AllDigits(h) && AllDigits(min) && AllDigits(s)
    requires y != "" && |min| >= 2 && |s| >= 2 && h != ""
    ensures Parse(y + "-" + m + "-" + d + "T" + (h + ":" + min + ":" + s) + "Z") == FromFields(y, m, d, h, min, s)
  {
    DigitsArePlain(y);
    DigitsArePlain(m);
    DigitsArePlain(d);
    DigitsArePlain(h);
    DigitsArePlain(min);
    DigitsArePlain(s);
    assert IsDigit(y[0]) && (y + "-" + m + "-" + d)[0] == y[0];
    HeadAndClock(y + "-" + m + "-" + d, h + ":" + min + ":" + s);
    SplitThree(y, m, d, '-');
    SplitThree(h, min, s, ':');
    SplitWhole(s, '.');
  }

  lemma ReadsPrinted(y: nat, m: nat, d: nat, h: nat, min: nat, s: nat)
    requires y <= I64_MAX && m < 100 && d < 100 && h < 100 && min < 100 && s < 100
    ensures Parse(DateText(y, m, d) + "T" + ClockText(h, min, s) + "Z") == Seconds(y, m, d, h, min, s)
  {
    PaddedParses(y, 4);
    PaddedParses(m, 2);
    PaddedParses(d, 2);
    PaddedParses(h, 2);
    PaddedParses(min, 2);
    PaddedParses(s, 2);
    ReadsPieces(Padded(y, 4), Padded(m, 2), Padded(d, 2), Padded(h, 2), Padded(min, 2), Padded(s, 2));
  }

  /** A text without a 'T' is refused. */
  lemma NeedsT(text: string)
    requires 'T' !in text
    ensures Parse(text) == None
  {
    var s := Trim(text);
    TrimWithin(text, 'T');
    var cut := TrimSuffix(TrimSuffix(s, "Z"), "+00:00");
    assert Find(cut, 'T') == |cut|;
  }

  lemma TrimWithin(s: string, c: char)
    ensures c in Trim(s) ==> c in s
  {
    TrimLeftWithin(s, c);
    TrimRightWithin(TrimLeft(s), c);
  }

  lemma {:induction false} TrimLeftWithin(s: string, c: char)
    ensures c in TrimLeft(s) ==> c in s
  {
    if s != "" && IsSpace(s[0]) {
      TrimLeftWithin(s[1..], c);
    }
  }

  lemma {:induction false} TrimRightWithin(s: string, c: char)
    ensures c in TrimRight(s) ==> c in s
  {
    if s != "" && IsSpace(s[|s| - 1]) {
      TrimRightWithin(s[..|s| - 1], c);
    }
  }

  /** Fractions of a second are dropped, blanks around the text too, and the offset can be written out. */
  lemma ReadsForms(y: nat, m: nat, d: nat, h: nat, min: nat, s: nat, fraction: string, before: string, after: string)
    requires y <= I64_MAX && m < 100 && d < 100 && h < 100 && min < 100 && s < 100
    requires AllDigits(fraction) && Blanks(before) && Blanks(after)
    ensures var text := DateText(y, m, d) + "T" + ClockText(h, min, s);
            && Parse(before + (text + "Z") + after) == Seconds(y, m, d, h, min, s)
            && Parse(text + "." + fraction + "Z") == Seconds(y, m, d, h, min, s)
            && Parse(text + "+00:00") == Seconds(y, m, d, h, min, s)
  {
    PaddedParses(y, 4);
    PaddedParses(m, 2);
    PaddedParses(d, 2);
    PaddedParses(h, 2);
    PaddedParses(min, 2);
    PaddedParses(s, 2);
    PaddedPlain(min);
    PaddedPlain(s);
    ReadsAnyForm(Padded(y, 4), Padded(m, 2), Padded(d, 2), Padded(h, 2), Padded(min, 2), Padded(s, 2),
                 fraction, before, after);
  }

  lemma BlanksAround(before: string, s: string, after: string)
    requires Blanks(before) && Blanks(after) && s != "" && Visible(s[0]) && Visible(s[|s| - 1])
    ensures Parse(before + s + after) == Parse(s)
  {
    TrimStrips(before, s, after);
    TrimStrips("", s, "");
    assert "" + s + "" == s;
  }

  lemma OffsetCut(date: string, clock: string)
    requires date != "" && Visible(date[0]) && 'T' !in date
    ensures var s := TrimSuffix(TrimSuffix(Trim(date + "T" + clock + "+00:00"), "Z"), "+00:00");
            var t := Find(s, 'T');
            t < |s| && s[..t] == date && s[t + 1..] == clock
  {
    var s, u := date + "T" + clock + "+00:00", date + "T" + clock;
    TrimStrips("", s, "");
    assert "" + s + "" == s;
    assert s[|s| - 1] == '0' && s[..|s| - 6] == u && s[|s| - 6..] == "+00:00";
    FindFirst(date, 'T', clock);
    assert u == date + ['T'] + clock;
  }

  lemma ReadsAnyForm(y: string, m: string, d: string, h: string, min: string, s: string,
                     fraction: string, before: string, after: string)
    requires AllDigits(y) && AllDigits(m) && AllDigits(d) && AllDigits(h) && AllDigits(min) && AllDigits(s)
    requires y != "" && |min| >= 2 && |s| >= 2 && h != ""
    requires AllDigits(fraction) && Blanks(before) && Blanks(after)
    ensures var text := y + "-" + m + "-" + d + "T" + (h + ":" + min + ":" + s);
            && Parse(before + (text + "Z") + after) == FromFields(y, m, d, h, min, s)
            && Parse(text + "." + fraction + "Z") == FromFields(y, m, d, h, min, s)
            && Parse(text + "+00:00") == FromFields(y, m, d, h, min, s)
  {
    hide Parse, Trim, FromFields, Split, Find, AllDigits;
    var text := y + "-" + m + "-" + d + "T" + (h + ":" + min + ":" + s);
    DigitFirst(y);
    assert (text + "Z")[0] == y[0];
    ReadsPieces(y, m, d, h, min, s);
    BlanksAround(before, text + "Z", after);
    ReadsFraction(y, m, d, h, min, s, fraction);
    ReadsOffset(y, m, d, h, min, s);
  }

  lemma ReadsFraction(y: string, m: string, d: string, h: string, min: string, s: string, fraction: string)
    requires AllDigits(y) && AllDigits(m) && AllDigits(d) && AllDigits(h) && AllDigits(min) && AllDigits(s)
    requires y != "" && |min| >= 2 && |s| >= 2 && h != "" && AllDigits(fraction)
    ensures Parse(y + "-" + m + "-" + d + "T" + (h + ":" + min + ":" + s) + "." + fraction + "Z")
         == FromFields(y, m, d, h, min, s)
  {
    hide FromFields, Split, Find, Trim, TrimSuffix, AllDigits;
    var date, clock := y + "-" + m + "-" + d, h + ":" + min + ":" + (s + "." + fraction);
    PlainPieces(y, m, d, h, min, s);
    DigitsArePlain(fraction);
    DigitFirst(y);
    HeadAndClock(date, clock);
    assert date + "T" + clock + "Z" == date + "T" + (h + ":" + min + ":" + s) + "." + fraction + "Z";
    SplitThree(y, m, d, '-');
    SplitThree(h, min, s + "." + fraction, ':');
    SplitFirst(s, '.', fraction);
    assert s + "." + fraction == s + ['.'] + fraction;
  }

  lemma ReadsOffset(y: string, m: string, d: string, h: string, min: string, s: string)
    requires AllDigits(y) && AllDigits(m) && AllDigits(d) && AllDigits(h) && AllDigits(min) && AllDigits(s)
    requires y != "" && |min| >= 2 && |s| >= 2 && h != ""
    ensures Parse(y + "-" + m + "-" + d + "T" + (h + ":" + min + ":" + s) + "+00:00") == FromFields(y, m, d, h, min, s)
  {
    hide FromFields, Split, Find, Trim, TrimSuffix, AllDigits;
    PlainPieces(y, m, d, h, min, s);
    DigitFirst(y);
    OffsetCut(y + "-" + m + "-" + d, h + ":" + min + ":" + s);
    SplitThree(y, m, d, '-');
    SplitThree(h, min, s, ':');
    SplitWhole(s, '.');
  }

  lemma DigitFirst(s: string)
    requires AllDigits(s) && s != ""
    ensures IsDigit(s[0])
  {
  }

  lemma PlainPieces(y: string, m: string, d: string, h: string, min: string, s: string)
    requires AllDigits(y) && AllDigits(m) && AllDigits(d) && AllDigits(h) && AllDigits(min) && AllDigits(s)
    ensures forall t <- [y, m, d, h, min, s] ::
              'T' !in t && '-' !in t && ':' !in t && '.' !in t && '+' !in t
    ensures 'T' !in y + "-" + m + "-" + d && '+' !in h + ":" + min + ":" + s
  {
    DigitsArePlain(y);
    DigitsArePlain(m);
    DigitsArePlain(d);
    DigitsArePlain(h);
    DigitsArePlain(min);
    DigitsArePlain(s);
  }

  /** A year printed with a minus sign leaves an empty first field, which does not read as a number. */
  lemma NegativeYearUnreadable(y: int, m: nat, d: nat, clock: string)
    requires y < 0 && m < 100 && d < 100 && '+' !in clock && |clock| >= 6
    ensures Parse(DateText(y, m, d) + "T" + clock + "Z") == None
  {
  }

  lemma ClockIsPlain(h: nat, min: nat, s: nat)
    ensures '+' !in ClockText(h, min, s) && |ClockText(h, min, s)| >= 6
  {
    PaddedPlain(h);
    PaddedPlain(min);
    PaddedPlain(s);
  }

  lemma PaddedPlain(n: nat)
    ensures '+' !in Padded(n, 2) && |Padded(n, 2)| >= 2
  {
    DecimalParses(n);
    var k := if |Decimal(n)| < 2 then 2 - |Decimal(n)| else 0;
    LeadingZeros(k, Decimal(n));
    assert Padded(n, 2) == Zeros(k) + Decimal(n);
    assert Zeros(1) == "0";
    DigitsArePlain(Padded(n, 2));
  }

  // ---------- The round trip ----------

  lemma LaterYear(y: int, y': int, m: int, d: int)
    requires 1 <= m <= 12 && y < y'
    ensures DaysFromCivil(y, m, d) < DaysFromCivil(y', m, d)
    decreases y' - y
  {
  }

  lemma Anchors()
    ensures DaysFromCivil(1970, 1, 1) == 0
    ensures DaysFromCivil(0x8000_0000, 1, 1) * 86400 == FIRST_WRAPPED
    ensures DaysFromCivil(I64_MAX, 1, 1) > MAX_SECONDS
  {
  }

  /** The printed year is the true one exactly for the seconds before the year 2^31. */
  lemma YearFitsI32(n: nat, y: int, m: int, d: int)
    requires ValidDate(y, m, d) && DaysFromCivil(y, m, d) == n <= MAX_SECONDS
    ensures 1970 <= y <= I64_MAX && (y < 0x8000_0000 <==> n < DaysFromCivil(0x8000_0000, 1, 1))
  {
  }

  lemma PrintedReads(n: nat, rem: nat, y: int, m: int, d: int)
    requires ValidDate(y, m, d) && DaysFromCivil(y, m, d) == n && rem < 86400 && 0 <= y <= I64_MAX
    ensures var text := DateText(AsI32(y), m, d) + "T" + ClockText(rem / 3600, rem % 3600 / 60, rem % 60) + "Z";
            && (Parse(text) == Some(n * 86400 + rem) <==> y < 0x8000_0000)
            && (Parse(text).Some? ==> Parse(text).value <= n * 86400 + rem)
  {
    hide DaysFromCivil, CivilFromDays, Parse, Decimal;
    var h, min, s := rem / 3600, rem % 3600 / 60, rem % 60;
    assert h * 3600 + min * 60 + s == rem by {
      assert rem % 3600 == 60 * (rem % 3600 / 60) + rem % 60;
    }
    var y32 := AsI32(y);
    if y32 < 0 {
      ClockIsPlain(h, min, s);
      NegativeYearUnreadable(y32, m, d, ClockText(h, min, s));
    } else {
      ReadsPrinted(y32, m, d, h, min, s);
      if y32 < y {
        LaterYear(y32, y, m, d);
      }
    }
  }

  /**
   Printing and reading back a second of the epoch gives that second again exactly when its year fits the
   i32 the printer casts it to. Later seconds are either unreadable or read as an earlier time.
   */
  lemma RoundTrip(t: nat)
    requires t <= MAX_SECONDS
    ensures Parse(Format(t)) == Some(t) <==> t < FIRST_WRAPPED
    ensures Parse(Format(t)).Some? ==> Parse(Format(t)).value <= t
  {
    hide DaysFromCivil, Parse;
    var n := t / 86400;
    var (y, m, d) := CivilFromDays(n);
    CivilThenDays(n);
    Anchors();
    YearFitsI32(n, y, m, d);
    PrintedReads(n, t % 86400, y, m, d);
  }

  /** The printer writes digits and four separators, and so nothing that an encoder escapes. */
  lemma PrintsPlainly(t: nat)
    ensures PlainText(Format(t))
  {
    hide CivilFromDays, Padded;
    var (y, m, d) := CivilFromDays(t / 86400);
    PaddedIsPlain(AsI32(y), 4);
    PaddedIsPlain(m, 2);
    PaddedIsPlain(d, 2);
    var rem := t % 86400;
    PaddedIsPlain(rem / 3600, 2);
    PaddedIsPlain(rem % 3600 / 60, 2);
    PaddedIsPlain(rem % 60, 2);
  }

  lemma PaddedIsPlain(n: int, width: nat)
    ensures PlainText(Padded(n, width))
  {
    var sign, digits := if n < 0 then "-" else "", Decimal(if n < 0 then -n else n);
    DecimalIsPlain(if n < 0 then -n else n);
    ZerosArePlain(if |sign| + |digits| < width then width - |sign| - |digits| else 0);
  }

  lemma {:induction false} DecimalIsPlain(n: nat)
    ensures PlainText(Decimal(n))
  {
    if n >= 10 {
      DecimalIsPlain(n / 10);
    }
  }

  lemma {:induction false} ZerosArePlain(n: nat)
    ensures PlainText(Zeros(n))
  {
    if n > 0 {
      ZerosArePlain(n - 1);
    }
  }
}
