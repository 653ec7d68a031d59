/**
 * Periods (a year and a month token), their total-order value
 * `year * 12 + MONTHS.indexOf(month)`, and the string key `"<year>-<month>"`
 * under which the store files a period, with the way totals read a key back.
 */
module Period {
  import opened Common
  import opened JsText
  import opened Catalog

  datatype Period = Period(year: int, month: string)

  /** `MONTHS.indexOf(m)`: the month's calendar position 0..11, or -1 for anything outside the vocabulary. */
  function MonthIndex(m: string): (r: int)
    ensures -1 <= r < 12
    ensures r == -1 <==> m !in MONTHS
    ensures 0 <= r ==> MONTHS[r] == m
  {
    IndexOf(MONTHS, m)
  }

  /** The scalar the range filter compares. */
  function PeriodValue(p: Period): int {
    p.year * 12 + MonthIndex(p.month)
  }

  /** Over the month vocabulary, period values order periods by year and then by calendar month. */
  lemma PeriodValueOrder(a: Period, b: Period)
    requires a.month in MONTHS && b.month in MONTHS
    ensures PeriodValue(a) < PeriodValue(b) <==>
              a.year < b.year || (a.year == b.year && MonthIndex(a.month) < MonthIndex(b.month))
  {
    var i, j := MonthIndex(a.month), MonthIndex(b.month);
    if a.year < b.year {
      assert a.year * 12 + 12 <= b.year * 12;
    } else if a.year > b.year {
      assert b.year * 12 + 12 <= a.year * 12;
    }
  }

  /** Over the month vocabulary, a period value identifies its period. */
  lemma PeriodValueInjective(a: Period, b: Period)
    requires a.month in MONTHS && b.month in MONTHS
    requires PeriodValue(a) == PeriodValue(b)
    ensures a == b
  {
    PeriodValueOrder(a, b);
    PeriodValueOrder(b, a);
    assert MonthIndex(a.month) == MonthIndex(b.month);
  }

  lemma PeriodValueExamples()
    ensures PeriodValue(Period(2026, "fev")) < PeriodValue(Period(2026, "mar")) < PeriodValue(Period(2027, "jan"))
  {
    assert MONTHS[1] == "fev" && MONTHS[2] == "mar" && MONTHS[0] == "jan";
  }

  // ---------------------------------------------------------------- keys

  /** The store key `${year}-${month}`. */
  function EncodeKey(year: int, month: string): string {
    IntToString(year) + "-" + month
  }

  /**
   * What the totals read back from a key: `key.split('-')` gives the year
   * text and the month text (absent when the key has no '-'), and the year
   * text goes through `parseInt` (NaN is `None`).
   */
  datatype KeyParts = KeyParts(year: Option<int>, month: Option<string>)

  function DecodeKey(key: string): KeyParts {
    var fields := Split(key, '-');
    KeyParts(ParseInt(fields[0]), if |fields| >= 2 then Some(fields[1]) else None)
  }

  /** The period value the totals compute for a key; `None` when the year text is NaN (every comparison with NaN fails). */
  function KeyPeriodValue(key: string): Option<int> {
    PartsValue(DecodeKey(key))
  }

  /** `getPeriodValue(parseInt(yearText), monthText)`, where `indexOf` of an absent month is -1. */
  function PartsValue(parts: KeyParts): Option<int> {
    if parts.year.None? then None
    else Some(parts.year.value * 12 + (if parts.month.Some? then MonthIndex(parts.month.value) else -1))
  }

  /** A key built from a non-negative year and a month without '-' splits back into that year and month. */
  lemma {:induction false} DecodeEncodeKey(year: int, month: string)
    requires year >= 0 && '-' !in month
    ensures DecodeKey(EncodeKey(year, month)) == KeyParts(Some(year), Some(month))
  {
    var digits := NatToString(year);
    assert '-' !in digits by {
      forall i | 0 <= i < |digits| ensures digits[i] != '-' {
        assert IsDigit(digits[i]);
      }
    }
    var key := EncodeKey(year, month);
    assert key == digits + ['-'] + month;
    SplitAfterField(digits, month, '-');
    SplitNoSeparator(month, '-');
    assert Split(key, '-') == [digits, month];
    ParseIntOfIntToString(year);
    assert ParseInt(digits) == Some(year);
    assert DecodeKey(key) == KeyParts(Some(year), Some(month));
  }

  /** The value the totals read from the key of a non-negative year is the period's own value. */
  lemma EncodedKeyValue(year: int, month: string)
    requires year >= 0 && '-' !in month
    ensures KeyPeriodValue(EncodeKey(year, month)).Some?
    ensures KeyPeriodValue(EncodeKey(year, month)).value == PeriodValue(Period(year, month))
  {
    DecodeEncodeKey(year, month);
    DecodedValue(EncodeKey(year, month), year, month);
  }

  lemma DecodedValue(key: string, year: int, month: string)
    requires DecodeKey(key) == KeyParts(Some(year), Some(month))
    ensures KeyPeriodValue(key).Some? && KeyPeriodValue(key).value == PeriodValue(Period(year, month))
  {
  }

  /** The key of a negative year starts with '-', so its year text is empty and the period value is NaN. */
  lemma {:induction false} NegativeYearKeyHasNoValue(year: int, month: string)
    requires year < 0
    ensures DecodeKey(EncodeKey(year, month)).year == None
    ensures KeyPeriodValue(EncodeKey(year, month)) == None
  {
    var rest := NatToString(-year) + "-" + month;
    assert EncodeKey(year, month) == [] + ['-'] + rest;
    SplitAfterField([], rest, '-');
    assert TrimStart([]) == [];
  }

  /** Every year of the year selector and every month token make a key the totals read back exactly. */
  lemma SelectorKeysDecode(y: int, m: string)
    requires y in YEARS && m in MONTHS
    ensures KeyPeriodValue(EncodeKey(y, m)).Some?
    ensures KeyPeriodValue(EncodeKey(y, m)).value == PeriodValue(Period(y, m))
  {
    MonthsShape();
    EncodedKeyValue(y, m);
  }
}
