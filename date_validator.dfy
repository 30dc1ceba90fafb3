/** `validarFecha` and `validarRangoFechas`: the check of `YYYY-MM-DD` and
    `YYYY/MM/DD` calendar dates (the extended calendar-date form of
    ISO 8601:2004 section 4.1.2.2, plus a `/` variant). Components are read
    with `parseInt`, so a component that is missing or not numeric is NaN,
    and NaN fails every comparison. The current year is a parameter. */
module DateValidator {
  import opened Text

  /** The `{ valido, mensaje }` object both validators return. */
  datatype Verdict = Verdict(valido: bool, mensaje: string)

  const BadMonth := "Los meses deben estar entre 1 (Enero) y 12 (Diciembre)."
  const FutureYear := "El año no puede ser mayor al actual."
  const ValidDate := "Fecha válida."
  const StartAfterEnd := "La fecha de inicio no puede ser mayor que la de fin."
  const ValidRange := "Rango de fechas válido."

  function BadDay(month: Parsed, maxDays: Parsed): string
  {
    "La fecha no es válida. El mes " + NumberToString(month) + " tiene máximo "
    + NumberToString(maxDays) + " días."
  }

  // ---------------------------------------------------------------------
  // the Gregorian calendar

  predicate IsLeap(y: int)
  {
    y % 4 == 0 && (y % 100 != 0 || y % 400 == 0)
  }

  /** The number of days of month `m` (1 = January) of year `y`. */
  function DaysIn(y: int, m: int): int
    requires 1 <= m <= 12
  {
    if m == 2 then (if IsLeap(y) then 29 else 28)
    else if m == 4 || m == 6 || m == 9 || m == 11 then 30
    else 31
  }

  /** The year `new Date(y, m, d)` means: 0..99 are years of the 1900s. */
  function JsYear(y: int): int
  {
    if 0 <= y <= 99 then 1900 + y else y
  }

  predicate IsCalendarDate(y: int, m: int, d: int)
  {
    1 <= m <= 12 && 1 <= d <= DaysIn(y, m)
  }

  /** The days of the months 1..m of year y. */
  function DaysBefore(y: int, m: int): int
    requires 0 <= m <= 12
  {
    if m == 0 then 0 else DaysBefore(y, m - 1) + DaysIn(y, m)
  }

  /** February has 29 days exactly in leap years, and the twelve months
      add up to the length of the year. */
  lemma CalendarYear(y: int)
    ensures DaysIn(y, 2) == 29 <==> IsLeap(y)
    ensures DaysBefore(y, 12) == if IsLeap(y) then 366 else 365
    ensures forall m :: 1 <= m <= 12 ==> 28 <= DaysIn(y, m) <= 31
  {
    var feb := DaysIn(y, 2);
    assert DaysBefore(y, 1) == 31;
    assert DaysBefore(y, 2) == 31 + feb;
    assert DaysBefore(y, 3) == 62 + feb;
    assert DaysBefore(y, 4) == 92 + feb;
    assert DaysBefore(y, 5) == 123 + feb;
    assert DaysBefore(y, 6) == 153 + feb;
    assert DaysBefore(y, 7) == 184 + feb;
    assert DaysBefore(y, 8) == 215 + feb;
    assert DaysBefore(y, 9) == 245 + feb;
    assert DaysBefore(y, 10) == 276 + feb;
    assert DaysBefore(y, 11) == 306 + feb;
  }

  // ---------------------------------------------------------------------
  // validarFecha

  /** The components: split on `/` when the text contains one, otherwise on `-`. */
  function Parts(fecha: string): seq<string>
  {
    if '/' in fecha then Split(fecha, '/') else Split(fecha, '-')
  }

  /** `parseInt` of the i-th component; a missing one is `undefined`, which
      parses to NaN. */
  function Component(parts: seq<string>, i: nat): Parsed
  {
    if i < |parts| then ParseInt(parts[i]) else NaN
  }

  /** Whether the last day of month `m` of year `y` is a time a JS `Date`
      can hold: at most 8.64e15 ms from 1970-01-01, that is from
      -271821-04-20 to 275760-09-13 (a few hours of time zone either way
      never moves a last day of a month across either end). */
  predicate InDateRange(y: int, m: int)
  {
    (-271821 < y < 275760) || (y == 275760 && m <= 8) || (y == -271821 && m >= 4)
  }

  /** `new Date(year, month, 0).getDate()` for a month that passed the
      month check: the length of the month, and NaN as soon as either
      argument is NaN or the day lies outside the range of a `Date`. */
  function MaxDays(year: Parsed, month: Parsed): (r: Parsed)
    requires month.Int? ==> 1 <= month.value <= 12
    ensures r.Int? <==> year.Int? && month.Int? && InDateRange(JsYear(year.value), month.value)
    ensures r.Int? ==> 28 <= r.value <= 31
  {
    if year.Int? && month.Int? && InDateRange(JsYear(year.value), month.value)
    then Int(DaysIn(JsYear(year.value), month.value))
    else NaN
  }

  /** `validarFecha(fecha, validarAnioActual)` in a year `currentYear`. */
  function ValidarFecha(fecha: string, validarAnioActual: bool, currentYear: int): Verdict
  {
    var parts := Parts(fecha);
    var year := Component(parts, 0);
    var month := Component(parts, 1);
    var day := Component(parts, 2);
    if Below(month, Int(1)) || Below(Int(12), month) then Verdict(false, BadMonth)
    else
      var maxDays := MaxDays(year, month);
      if Below(day, Int(1)) || Below(maxDays, day) then Verdict(false, BadDay(month, maxDays))
      else if validarAnioActual && Below(Int(currentYear), year) then Verdict(false, FutureYear)
      else Verdict(true, ValidDate)
  }

  /** The text `y<sep>m<sep>d` for numeric components. */
  function Format(y: nat, m: nat, d: nat, sep: char): string
  {
    NatToString(y) + [sep] + NatToString(m) + [sep] + NatToString(d)
  }

  lemma FormatParts(y: nat, m: nat, d: nat, sep: char)
    requires sep == '-' || sep == '/'
    ensures Parts(Format(y, m, d, sep)) == [NatToString(y), NatToString(m), NatToString(d)]
  {
    SplitFormat(y, m, d, sep);
    SlashInFormat(y, m, d, sep);
  }

  lemma SplitFormat(y: nat, m: nat, d: nat, sep: char)
    requires !IsDigit(sep)
    ensures Split(Format(y, m, d, sep), sep) == [NatToString(y), NatToString(m), NatToString(d)]
  {
    var ys, ms, ds := NatToString(y), NatToString(m), NatToString(d);
    NoSeparatorInDigits(ys, sep);
    NoSeparatorInDigits(ms, sep);
    NoSeparatorInDigits(ds, sep);
    assert Format(y, m, d, sep) == ys + [sep] + (ms + [sep] + ds);
    SplitAt(ys, ms + [sep] + ds, sep);
    SplitAt(ms, ds, sep);
    SplitWhole(ds, sep);
  }

  lemma SlashInFormat(y: nat, m: nat, d: nat, sep: char)
    ensures '/' in Format(y, m, d, sep) <==> sep == '/'
  {
    var ys, ms, ds := NatToString(y), NatToString(m), NatToString(d);
    NoSeparatorInDigits(ys, '/');
    NoSeparatorInDigits(ms, '/');
    NoSeparatorInDigits(ds, '/');
    assert Format(y, m, d, sep) == ys + [sep] + ms + [sep] + ds;
  }

  lemma NoSeparatorInDigits(s: string, sep: char)
    requires AllDigits(s) && !IsDigit(sep)
    ensures sep !in s
  {
  }

  /** On a text of three numbers, `validarFecha` accepts exactly the dates of
      the calendar (with the year as `new Date` reads it) that are not in a
      later year when the year check is on, and reports a bad month before
      anything else. Past the range of a `Date` the length of the month is
      NaN, so there any day from 1 on passes. */
  lemma ValidarFechaOfNumbers(y: nat, m: nat, d: nat, sep: char, validarAnioActual: bool, currentYear: int)
    requires sep == '-' || sep == '/'
    ensures ValidarFecha(Format(y, m, d, sep), validarAnioActual, currentYear).valido
            <==> (if InDateRange(JsYear(y), m) then IsCalendarDate(JsYear(y), m, d) else 1 <= m <= 12 && 1 <= d)
                 && !(validarAnioActual && y > currentYear)
    ensures !(1 <= m <= 12) ==> ValidarFecha(Format(y, m, d, sep), validarAnioActual, currentYear) == Verdict(false, BadMonth)
  {
    NumericComponents(y, m, d, sep);
  }

  /** The three components of a formatted date are its three numbers. */
  lemma NumericComponents(y: nat, m: nat, d: nat, sep: char)
    requires sep == '-' || sep == '/'
    ensures var parts := Parts(Format(y, m, d, sep));
            |parts| == 3 && Component(parts, 0) == Int(y) && Component(parts, 1) == Int(m) && Component(parts, 2) == Int(d)
  {
    FormatParts(y, m, d, sep);
    ParseIntOfDigits(y);
    ParseIntOfDigits(m);
    ParseIntOfDigits(d);
  }

  /** Every year from 0 to 275759 is inside the range of a
      `Date`, so there the validation is exactly the calendar's. */
  lemma ValidarFechaInRange(y: nat, m: nat, d: nat, sep: char, validarAnioActual: bool, currentYear: int)
    requires sep == '-' || sep == '/'
    requires y < 275760
    ensures ValidarFecha(Format(y, m, d, sep), validarAnioActual, currentYear).valido
            <==> IsCalendarDate(JsYear(y), m, d) && !(validarAnioActual && y > currentYear)
  {
    ValidarFechaOfNumbers(y, m, d, sep, validarAnioActual, currentYear);
  }

  /** Past the range of a `Date` the validation takes any day from 1 on:
      `300000-2-30` passes without the year check. */
  lemma AcceptsAnyDayPastDateRange(y: nat, m: nat, d: nat, sep: char, currentYear: int)
    requires sep == '-' || sep == '/'
    requires y > 275760 && 1 <= m <= 12 && 1 <= d
    ensures ValidarFecha(Format(y, m, d, sep), false, currentYear) == Verdict(true, ValidDate)
  {
    NumericComponents(y, m, d, sep);
  }

  /** The month is checked first: a numeric month outside 1..12 gives the
      month message whatever the day and the year. */
  lemma MonthCheckedFirst(fecha: string, validarAnioActual: bool, currentYear: int)
    requires Component(Parts(fecha), 1).Int?
    requires !(1 <= Component(Parts(fecha), 1).value <= 12)
    ensures ValidarFecha(fecha, validarAnioActual, currentYear) == Verdict(false, BadMonth)
  {
  }

  /** The year check is off unless asked for: without it the current year
      plays no part, and with it the only extra rejection is a later year. */
  lemma YearCheckOnlyWhenAsked(fecha: string, currentYear: int, otherYear: int)
    ensures ValidarFecha(fecha, false, currentYear) == ValidarFecha(fecha, false, otherYear)
    ensures ValidarFecha(fecha, true, currentYear).valido
            <==> ValidarFecha(fecha, false, currentYear).valido
                 && !Below(Int(currentYear), Component(Parts(fecha), 0))
    ensures !ValidarFecha(fecha, false, currentYear).valido
            ==> ValidarFecha(fecha, true, currentYear) == ValidarFecha(fecha, false, currentYear)
  {
  }

  /** A verdict is valid exactly when it carries the message of a valid
      date: no rejection message can be mistaken for it. */
  lemma VerdictMessages(fecha: string, validarAnioActual: bool, currentYear: int)
    ensures var v := ValidarFecha(fecha, validarAnioActual, currentYear);
            v.valido <==> v.mensaje == ValidDate
  {
    BadDayIsNotValid();
  }

  /** The day-range message never reads as the valid-date message. */
  lemma BadDayIsNotValid()
    ensures forall month, maxDays :: BadDay(month, maxDays) != ValidDate
  {
    forall month, maxDays
      ensures BadDay(month, maxDays) != ValidDate
    {
      assert BadDay(month, maxDays)[0] == 'L' != ValidDate[0];
    }
  }

  /** Text with no digits and no separator (`mañana`, say) is a single
      component that parses to NaN, slips past every comparison and is
      accepted, even with the year check. */
  lemma AcceptsText(text: string, validarAnioActual: bool, currentYear: int)
    requires '/' !in text && '-' !in text
    requires forall i :: 0 <= i < |text| ==> !IsDigit(text[i])
    ensures ValidarFecha(text, validarAnioActual, currentYear) == Verdict(true, ValidDate)
  {
    SplitWhole(text, '-');
    assert Parts(text) == [text];
    NoDigitsIsNaN(text);
  }

  // ---------------------------------------------------------------------
  // validarRangoFechas

  /** The (year, month, day) `new Date(fecha)` names: a year alone is
      January 1 and a year and month the first of that month, as in the
      date-only forms of ISO 8601; a component that is there but not a
      number makes the text no date. */
  function DayOf(fecha: string): CalendarDay
  {
    var parts := Parts(fecha);
    var y := Component(parts, 0);
    var m := if |parts| < 2 then Int(1) else Component(parts, 1);
    var d := if |parts| < 3 then Int(1) else Component(parts, 2);
    if y.Int? && m.Int? && d.Int? then Day(y.value, m.value, d.value) else NoDay
  }

  datatype CalendarDay = NoDay | Day(y: int, m: int, d: int)

  /** Strict chronological order of two named days. */
  predicate DayBefore(a: CalendarDay, b: CalendarDay)
  {
    a.Day? && b.Day? &&
    (a.y < b.y || (a.y == b.y && (a.m < b.m || (a.m == b.m && a.d < b.d))))
  }

  /** `new Date(inicio) > new Date(fin)`: false when either text names no
      day (an invalid `Date` compares as NaN). */
  predicate StartAfter(inicio: string, fin: string)
  {
    DayBefore(DayOf(fin), DayOf(inicio))
  }

  /** `validarRangoFechas(fechaInicio, fechaFin)` in a year `currentYear`. */
  function ValidarRangoFechas(fechaInicio: string, fechaFin: string, currentYear: int): Verdict
  {
    var inicio := ValidarFecha(fechaInicio, false, currentYear);
    if !inicio.valido then inicio
    else
      var fin := ValidarFecha(fechaFin, true, currentYear);
      if !fin.valido then fin
      else if StartAfter(fechaInicio, fechaFin) then Verdict(false, StartAfterEnd)
      else Verdict(true, ValidRange)
  }

  /** The start is checked without the year check and its failure is
      returned unchanged; the end is checked with it; a start after the end
      is rejected and anything else is a valid range. */
  lemma RangeChecks(inicio: string, fin: string, currentYear: int)
    ensures !ValidarFecha(inicio, false, currentYear).valido
            ==> ValidarRangoFechas(inicio, fin, currentYear) == ValidarFecha(inicio, false, currentYear)
    ensures ValidarFecha(inicio, false, currentYear).valido && !ValidarFecha(fin, true, currentYear).valido
            ==> ValidarRangoFechas(inicio, fin, currentYear) == ValidarFecha(fin, true, currentYear)
    ensures ValidarRangoFechas(inicio, fin, currentYear).valido
            <==> ValidarFecha(inicio, false, currentYear).valido
                 && ValidarFecha(fin, true, currentYear).valido
                 && !StartAfter(inicio, fin)
  {
  }

  /** A range from a date to itself is valid exactly when the date passes
      the year-checked validation. */
  lemma EqualDatesRange(fecha: string, currentYear: int)
    ensures ValidarRangoFechas(fecha, fecha, currentYear).valido <==> ValidarFecha(fecha, true, currentYear).valido
  {
    YearCheckOnlyWhenAsked(fecha, currentYear, currentYear);
  }

  /** Two numeric dates: the range is rejected for order exactly when the
      start falls on a later day. */
  lemma RangeOfNumbers(y1: nat, m1: nat, d1: nat, y2: nat, m2: nat, d2: nat, currentYear: int)
    requires IsCalendarDate(JsYear(y1), m1, d1) && IsCalendarDate(JsYear(y2), m2, d2) && y2 <= currentYear
    ensures var v := ValidarRangoFechas(Format(y1, m1, d1, '-'), Format(y2, m2, d2, '-'), currentYear);
            v.valido <==> !DayBefore(Day(y2, m2, d2), Day(y1, m1, d1))
  {
    ValidarFechaOfNumbers(y1, m1, d1, '-', false, currentYear);
    ValidarFechaOfNumbers(y2, m2, d2, '-', true, currentYear);
    NumericComponents(y1, m1, d1, '-');
    NumericComponents(y2, m2, d2, '-');
  }

  /** The text `y<sep>m` of a year and a month. */
  function MonthFormat(y: nat, m: nat, sep: char): string
  {
    NatToString(y) + [sep] + NatToString(m)
  }

  /** A year and a month name the first of that month, and pass the
      validation whatever the year, since the missing day is NaN. */
  lemma MonthFormatDay(y: nat, m: nat, currentYear: int)
    requires 1 <= m <= 12
    ensures DayOf(MonthFormat(y, m, '-')) == Day(y, m, 1)
    ensures ValidarFecha(MonthFormat(y, m, '-'), false, currentYear) == Verdict(true, ValidDate)
  {
    MonthFormatParts(y, m);
    ParseIntOfDigits(y);
    ParseIntOfDigits(m);
  }

  lemma MonthFormatParts(y: nat, m: nat)
    ensures Parts(MonthFormat(y, m, '-')) == [NatToString(y), NatToString(m)]
  {
    var ys, ms := NatToString(y), NatToString(m);
    NoSeparatorInDigits(ys, '-');
    NoSeparatorInDigits(ms, '-');
    NoSeparatorInDigits(ys, '/');
    NoSeparatorInDigits(ms, '/');
    assert '/' !in MonthFormat(y, m, '-');
    SplitAt(ys, ms, '-');
    SplitWhole(ms, '-');
  }

  /** A range that starts with a year and a month starts on the first of
      that month: `2024-3` to `2024-2-15` is refused for its order. */
  lemma MonthStartRange(y: nat, m: nat, y2: nat, m2: nat, d2: nat, currentYear: int)
    requires 1 <= m <= 12
    requires IsCalendarDate(JsYear(y2), m2, d2) && y2 < 275760 && y2 <= currentYear
    ensures var v := ValidarRangoFechas(MonthFormat(y, m, '-'), Format(y2, m2, d2, '-'), currentYear);
            v.valido <==> !DayBefore(Day(y2, m2, d2), Day(y, m, 1))
    ensures DayBefore(Day(y2, m2, d2), Day(y, m, 1))
            ==> ValidarRangoFechas(MonthFormat(y, m, '-'), Format(y2, m2, d2, '-'), currentYear) == Verdict(false, StartAfterEnd)
  {
    MonthFormatDay(y, m, currentYear);
    ValidarFechaInRange(y2, m2, d2, '-', true, currentYear);
    NumericComponents(y2, m2, d2, '-');
  }
}
