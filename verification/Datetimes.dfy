/** UTC datetimes, the instants they denote, and the fixed-width text they are stored as. */
module Datetimes {
  import opened Lib

  /** The civil fields of a timezone-aware UTC datetime. */
  datatype Civil = Civil(year: nat, month: nat, day: nat, hour: nat, minute: nat, second: nat, micro: nat)

  predicate IsLeap(year: nat) {
    year % 4 == 0 && (year % 100 != 0 || year % 400 == 0)
  }

  function DaysInMonth(year: nat, month: nat): (d: nat)
    requires 1 <= month <= 12
  {
    if month == 2 then (if IsLeap(year) then 29 else 28)
    else if month in {4, 6, 9, 11} then 30
    else 31
  }

  predicate IsCivil(c: Civil) {
    && 1 <= c.year <= 9999
    && 1 <= c.month <= 12
    && 1 <= c.day <= DaysInMonth(c.year, c.month)
    && c.hour < 24 && c.minute < 60 && c.second < 60 && c.micro < 1_000_000
  }

  type Stamp = c: Civil | IsCivil(c) witness Civil(1, 1, 1, 0, 0, 0, 0)

  // ---- instants ---------------------------------------------------------------------------

  /** Days from the start of year 1 to the start of `year`, adding up the months between. */
  function DaysBeforeYear(year: nat): nat
    requires year >= 1
  {
    if year == 1 then 0 else DaysBeforeYear(year - 1) + DaysBeforeMonth(year - 1, 13)
  }

  function DaysBeforeMonth(year: nat, month: nat): nat
    requires 1 <= month <= 13
  {
    if month == 1 then 0 else DaysBeforeMonth(year, month - 1) + DaysInMonth(year, month - 1)
  }

  function DayNumber(c: Stamp): nat {
    DaysBeforeYear(c.year) + DaysBeforeMonth(c.year, c.month) + c.day
  }

  function MicroOfDay(c: Stamp): (m: nat)
    ensures m < 86_400_000_000
  {
    ((c.hour * 60 + c.minute) * 60 + c.second) * 1_000_000 + c.micro
  }

  /** Microseconds on the proleptic Gregorian time line: what two datetimes are compared by. */
  function Instant(c: Stamp): nat {
    DayNumber(c) * 86_400_000_000 + MicroOfDay(c)
  }

  /** `a` is earlier than `b` field by field, most significant field first. */
  predicate CivilLess(a: Civil, b: Civil) {
    if a.year != b.year then a.year < b.year
    else if a.month != b.month then a.month < b.month
    else if a.day != b.day then a.day < b.day
    else if a.hour != b.hour then a.hour < b.hour
    else if a.minute != b.minute then a.minute < b.minute
    else if a.second != b.second then a.second < b.second
    else a.micro < b.micro
  }

  lemma {:induction false} MonthsFit(year: nat, low: nat, high: nat)
    requires 1 <= low < high <= 13
    ensures DaysBeforeMonth(year, low) + DaysInMonth(year, low) <= DaysBeforeMonth(year, high)
    decreases high
  {
    if low < high - 1 {
      MonthsFit(year, low, high - 1);
    }
  }

  lemma {:induction false} YearsFit(low: nat, high: nat)
    requires 1 <= low < high
    ensures DaysBeforeYear(low) + DaysBeforeMonth(low, 13) <= DaysBeforeYear(high)
    decreases high
  {
    if low < high - 1 {
      YearsFit(low, high - 1);
    }
  }

  lemma EarlierDay(a: Stamp, b: Stamp)
    requires CivilLess(a.(hour := 0, minute := 0, second := 0, micro := 0),
                       b.(hour := 0, minute := 0, second := 0, micro := 0))
    ensures DayNumber(a) < DayNumber(b)
  {
    if a.year != b.year {
      YearsFit(a.year, b.year);
      MonthsFit(a.year, a.month, 13);
    } else if a.month != b.month {
      MonthsFit(a.year, a.month, b.month);
    }
  }

  lemma CivilLessIsEarlier(a: Stamp, b: Stamp)
    requires CivilLess(a, b)
    ensures Instant(a) < Instant(b)
  {
    if a.year == b.year && a.month == b.month && a.day == b.day {
      assert MicroOfDay(a) < MicroOfDay(b);
    } else {
      EarlierDay(a, b);
    }
  }

  /** Field-by-field order is the order of the instants. */
  lemma CivilOrderIsInstantOrder(a: Stamp, b: Stamp)
    ensures CivilLess(a, b) <==> Instant(a) < Instant(b)
  {
    if CivilLess(a, b) {
      CivilLessIsEarlier(a, b);
    } else if CivilLess(b, a) {
      CivilLessIsEarlier(b, a);
    }
  }

  // ---- stored text --------------------------------------------------------------------------

  function Pow10(width: nat): nat {
    if width == 0 then 1 else 10 * Pow10(width - 1)
  }

  function DigitChar(d: nat): char
    requires d < 10
  {
    ('0' as int + d) as char
  }

  /** The last `width` decimal digits of `n`, zero-padded. */
  function Digits(n: nat, width: nat): (s: string)
    ensures |s| == width
  {
    if width == 0 then "" else Digits(n / 10, width - 1) + [DigitChar(n % 10)]
  }

  /** `_encode_datetime` of a UTC datetime. */
  function Encode(c: Civil): string {
    Digits(c.year, 4) + ("-" + (Digits(c.month, 2) + ("-" + (Digits(c.day, 2) + ("T" + EncodeTime(c))))))
  }

  function EncodeTime(c: Civil): string {
    Digits(c.hour, 2) + (":" + (Digits(c.minute, 2)
                                + (":" + (Digits(c.second, 2) + ("." + (Digits(c.micro, 6) + "+00:00"))))))
  }

  lemma {:induction false} DigitsOrder(m: nat, n: nat, width: nat)
    requires m < Pow10(width) && n < Pow10(width)
    ensures TextLess(Digits(m, width), Digits(n, width)) <==> m < n
    ensures Digits(m, width) == Digits(n, width) <==> m == n
  {
    if width > 0 {
      var a, b := Digits(m / 10, width - 1), Digits(n / 10, width - 1);
      DigitsOrder(m / 10, n / 10, width - 1);
      TextLessBlocks(a, b, [DigitChar(m % 10)], [DigitChar(n % 10)]);
      assert Digits(m, width)[..width - 1] == a && Digits(n, width)[..width - 1] == b;
      assert Digits(m, width)[width - 1] == DigitChar(m % 10) && Digits(n, width)[width - 1] == DigitChar(n % 10);
    }
  }

  /** One fixed-width field followed by a separator and more text. */
  lemma FieldOrder(m: nat, n: nat, width: nat, sep: char, x: string, y: string)
    requires m < Pow10(width) && n < Pow10(width)
    ensures TextLess(Digits(m, width) + ([sep] + x), Digits(n, width) + ([sep] + y))
       <==> m < n || (m == n && TextLess(x, y))
  {
    DigitsOrder(m, n, width);
    TextLessBlocks(Digits(m, width), Digits(n, width), [sep] + x, [sep] + y);
    assert ([sep] + x)[1..] == x && ([sep] + y)[1..] == y;
  }

  lemma Pow10Values()
    ensures Pow10(2) == 100 && Pow10(4) == 10_000 && Pow10(6) == 1_000_000
  {
    assert Pow10(3) == 1000 && Pow10(5) == 100_000;
  }

  lemma TimeTextOrder(a: Stamp, b: Stamp)
    ensures TextLess(EncodeTime(a), EncodeTime(b))
       <==> CivilLess(a.(year := b.year, month := b.month, day := b.day), b)
  {
    Pow10Values();
    var fa, fb := Digits(a.micro, 6) + "+00:00", Digits(b.micro, 6) + "+00:00";
    DigitsOrder(a.micro, b.micro, 6);
    TextLessBlocks(Digits(a.micro, 6), Digits(b.micro, 6), "+00:00", "+00:00");
    TextLessIrreflexive("+00:00");
    FieldOrder(a.second, b.second, 2, '.', fa, fb);
    var sa, sb := Digits(a.second, 2) + ("." + fa), Digits(b.second, 2) + ("." + fb);
    FieldOrder(a.minute, b.minute, 2, ':', sa, sb);
    FieldOrder(a.hour, b.hour, 2, ':', Digits(a.minute, 2) + (":" + sa), Digits(b.minute, 2) + (":" + sb));
  }

  /** Stored timestamps compare as text exactly as the instants they denote compare. */
  lemma TextOrderIsInstantOrder(a: Stamp, b: Stamp)
    ensures TextLess(Encode(a), Encode(b)) <==> Instant(a) < Instant(b)
    ensures Encode(a) == Encode(b) <==> a == b
    ensures a == b <==> Instant(a) == Instant(b)
  {
    TextOrderIsCivilOrder(a, b);
    TextOrderIsCivilOrder(b, a);
    CivilOrderIsInstantOrder(a, b);
    CivilOrderIsInstantOrder(b, a);
    TextLessIrreflexive(Encode(a));
  }

  lemma TextOrderIsCivilOrder(a: Stamp, b: Stamp)
    ensures TextLess(Encode(a), Encode(b)) <==> CivilLess(a, b)
  {
    Pow10Values();
    TimeTextOrder(a, b);
    var ta, tb := EncodeTime(a), EncodeTime(b);
    FieldOrder(a.day, b.day, 2, 'T', ta, tb);
    var da, db := Digits(a.day, 2) + ("T" + ta), Digits(b.day, 2) + ("T" + tb);
    FieldOrder(a.month, b.month, 2, '-', da, db);
    FieldOrder(a.year, b.year, 4, '-', Digits(a.month, 2) + ("-" + da), Digits(b.month, 2) + ("-" + db));
  }

  // ---- reading stored text back ---------------------------------------------------------------

  predicate AllDigits(s: string) {
    forall i | 0 <= i < |s| :: IsDigit(s[i])
  }

  function DigitValue(c: char): (d: nat)
    requires IsDigit(c)
    ensures d < 10
  {
    c as int - '0' as int
  }

  function Number(s: string): nat
    requires AllDigits(s)
  {
    if s == "" then 0 else Number(s[..|s| - 1]) * 10 + DigitValue(s[|s| - 1])
  }

  /** The text shape `ISO_UTC` accepts, with digits of any script; the `$` of that pattern also allows one final
      newline. */
  predicate IsStampText(s: string) {
    && (|s| == 32 || (|s| == 33 && s[32] == '\n'))
    && AllDecimal(s[0..4]) && s[4] == '-' && AllDecimal(s[5..7]) && s[7] == '-' && AllDecimal(s[8..10])
    && s[10] == 'T' && AllDecimal(s[11..13]) && s[13] == ':' && AllDecimal(s[14..16]) && s[16] == ':'
    && AllDecimal(s[17..19]) && s[19] == '.' && AllDecimal(s[20..26]) && s[26..32] == "+00:00"
  }

  /** Every digit of a text of that shape is an ASCII digit. */
  predicate HasAsciiDigits(s: string)
    requires IsStampText(s)
  {
    && AllDigits(s[0..4]) && AllDigits(s[5..7]) && AllDigits(s[8..10]) && AllDigits(s[11..13])
    && AllDigits(s[14..16]) && AllDigits(s[17..19]) && AllDigits(s[20..26])
  }

  /** `datetime.fromisoformat` on text of that shape: a digit of another script, a trailing newline or an impossible
      date raises. */
  function FromIso(s: string): Result<Stamp>
    requires IsStampText(s)
  {
    if !HasAsciiDigits(s) then Err else
    var c := Civil(Number(s[0..4]), Number(s[5..7]), Number(s[8..10]),
                   Number(s[11..13]), Number(s[14..16]), Number(s[17..19]), Number(s[20..26]));
    if |s| == 32 && IsCivil(c) then Ok(c) else Err
  }

  lemma {:induction false} NumberOfDigits(n: nat, width: nat)
    requires n < Pow10(width)
    ensures AllDigits(Digits(n, width)) && Number(Digits(n, width)) == n
  {
    if width > 0 {
      NumberOfDigits(n / 10, width - 1);
      var s := Digits(n, width);
      assert s[..|s| - 1] == Digits(n / 10, width - 1);
    }
  }

  lemma DateLayout(c: Civil, s: string)
    requires s == Encode(c)
    ensures |s| == 32
    ensures s[0..4] == Digits(c.year, 4) && s[4] == '-' && s[5..7] == Digits(c.month, 2) && s[7] == '-'
    ensures s[8..10] == Digits(c.day, 2) && s[10] == 'T' && s == s[..11] + EncodeTime(c)
  {
  }

  lemma TimeLayout(c: Civil, pre: string, s: string)
    requires |pre| == 11 && s == pre + EncodeTime(c)
    ensures |s| == 32
    ensures s[11..13] == Digits(c.hour, 2) && s[13] == ':' && s[14..16] == Digits(c.minute, 2) && s[16] == ':'
    ensures s[17..19] == Digits(c.second, 2) && s[19] == '.'
    ensures s[20..26] == Digits(c.micro, 6) && s[26..32] == "+00:00"
  {
  }

  /** The encoded text has the stored shape and reads back as the same datetime. */
  lemma FromIsoOfEncode(c: Stamp)
    ensures IsStampText(Encode(c)) && FromIso(Encode(c)) == Ok(c)
  {
    Pow10Values();
    NumberOfDigits(c.year, 4);
    NumberOfDigits(c.month, 2);
    NumberOfDigits(c.day, 2);
    NumberOfDigits(c.hour, 2);
    NumberOfDigits(c.minute, 2);
    NumberOfDigits(c.second, 2);
    NumberOfDigits(c.micro, 6);
    var s := Encode(c);
    DateLayout(c, s);
    TimeLayout(c, s[..11], s);
  }

  lemma {:induction false} DigitsOfNumber(s: string)
    requires AllDigits(s)
    ensures Number(s) < Pow10(|s|) && Digits(Number(s), |s|) == s
  {
    if s != "" {
      var front := s[..|s| - 1];
      DigitsOfNumber(front);
      assert Number(s) / 10 == Number(front) && s == front + [s[|s| - 1]];
    }
  }

  lemma StampTextParts(s: string)
    requires IsStampText(s) && |s| == 32
    ensures s == s[0..4] + ("-" + (s[5..7] + ("-" + (s[8..10] + ("T" + s[11..32])))))
    ensures s[11..32] == s[11..13] + (":" + (s[14..16] + (":" + (s[17..19] + ("." + (s[20..26] + "+00:00"))))))
  {
  }

  /** A text of the stored shape is read as a datetime only if it is the encoding of that datetime. */
  lemma EncodeOfFromIso(s: string)
    requires IsStampText(s) && FromIso(s).Ok?
    ensures Encode(FromIso(s).value) == s
  {
    hide IsStampText, IsCivil, AllDecimal;
    StampTextParts(s);
    DigitsOfNumber(s[0..4]);
    DigitsOfNumber(s[5..7]);
    DigitsOfNumber(s[8..10]);
    DigitsOfNumber(s[11..13]);
    DigitsOfNumber(s[14..16]);
    DigitsOfNumber(s[17..19]);
    DigitsOfNumber(s[20..26]);
  }

  /** No encoded datetime holds a control character. */
  lemma EncodedIsPrintable(c: Stamp)
    ensures forall i | 0 <= i < |Encode(c)| :: ' ' < Encode(c)[i]
  {
    DigitsPrintable(c.year, 4);
    DigitsPrintable(c.month, 2);
    DigitsPrintable(c.day, 2);
    DigitsPrintable(c.hour, 2);
    DigitsPrintable(c.minute, 2);
    DigitsPrintable(c.second, 2);
    DigitsPrintable(c.micro, 6);
  }

  lemma {:induction false} DigitsPrintable(n: nat, width: nat)
    ensures forall i | 0 <= i < |Digits(n, width)| :: ' ' < Digits(n, width)[i]
  {
    if width > 0 {
      DigitsPrintable(n / 10, width - 1);
    }
  }
}
