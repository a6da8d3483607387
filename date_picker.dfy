/** components/ui/date-picker-field.tsx: the date field of the patient card.
    Dates travel as `YYYY-MM-DD` text. A JavaScript `Date` is represented by
    the three local fields the component reads from it; turning text into a
    `Date` is the engine's `new Date(...)`, which is a parameter here. */
module DatePicker {
  import opened Optional
  import opened Text

  /** `getFullYear()`, `getMonth()` (0 for January) and `getDate()`. */
  datatype CalendarDate = CalendarDate(year: int, month0: int, day: int)

  /** `parseISODate`: only non-empty text of the `YYYY-MM-DD` shape is handed
      to the engine (with the time `T12:00:00`), whose invalid dates give none. */
  function ParseIsoDate(str: Option<string>, construct: string -> Option<CalendarDate>): (d: Option<CalendarDate>)
    ensures d.Some? ==> str.Some? && IsIsoDateShape(str.value)
    ensures str.Some? && IsIsoDateShape(str.value) ==> d == construct(str.value + "T12:00:00")
  {
    if str.None? || str.value == [] || !IsIsoDateShape(str.value) then None
    else construct(str.value + "T12:00:00")
  }

  /** The date the picker opens on: the value's date, else today. */
  function InitialDate(value: Option<string>, construct: string -> Option<CalendarDate>, today: CalendarDate): (d: CalendarDate)
    ensures value.None? || !IsIsoDateShape(value.value) ==> d == today
  {
    ParseIsoDate(value, construct).GetOr(today)
  }

  /** `String(n).padStart(2, '0')` */
  function TwoDigits(n: int): string {
    PadStart2(Dec(n))
  }

  /** `toISODate` */
  function ToIsoDate(date: CalendarDate): string {
    Dec(date.year) + "-" + TwoDigits(date.month0 + 1) + "-" + TwoDigits(date.day)
  }

  /** A number below 100 pads to two digits that read back as the number. */
  lemma TwoDigitsValue(n: int)
    requires 0 <= n < 100
    ensures |TwoDigits(n)| == 2 && AllDigits(TwoDigits(n)) && DigitsValue(TwoDigits(n)) == n
  {
    DecNatSmall(n);
    DecNatValue(n);
    var s := DecNat(n);
    if n < 10 {
      assert TwoDigits(n) == "0" + s;
      assert ("0" + s)[..1] == "0";
      assert DigitsValue("0") == 0;
    }
  }

  /** Any picked date of a four-digit year prints in the `YYYY-MM-DD` shape,
      and its three parts read back as the year, the month and the day. */
  lemma {:induction false} IsoDateShape(date: CalendarDate)
    requires 1000 <= date.year <= 9999 && 0 <= date.month0 <= 11 && 1 <= date.day <= 31
    ensures var r := ToIsoDate(date);
      && IsIsoDateShape(r)
      && DigitsValue(r[..4]) == date.year
      && DigitsValue(r[5..7]) == date.month0 + 1
      && DigitsValue(r[8..]) == date.day
  {
    var y, m, d := DecNat(date.year), TwoDigits(date.month0 + 1), TwoDigits(date.day);
    DecNatFourDigits(date.year);
    DecNatValue(date.year);
    TwoDigitsValue(date.month0 + 1);
    TwoDigitsValue(date.day);
    var r := y + "-" + m + "-" + d;
    assert r == ToIsoDate(date);
    assert r[..4] == y && r[5..7] == m && r[8..] == d;
    assert IsDigit(y[0]) && IsDigit(y[1]) && IsDigit(y[2]) && IsDigit(y[3]);
    assert IsDigit(m[0]) && IsDigit(m[1]) && IsDigit(d[0]) && IsDigit(d[1]);
  }

  lemma {:induction false} DecNatLength(n: nat)
    ensures n < 10 ==> |DecNat(n)| <= 1
    ensures n < 100 ==> |DecNat(n)| <= 2
    ensures n < 1000 ==> |DecNat(n)| <= 3
    ensures n >= 10 ==> |DecNat(n)| >= 2
    ensures n >= 100 ==> |DecNat(n)| >= 3
    ensures n >= 1000 ==> |DecNat(n)| >= 4
    ensures n >= 10000 ==> |DecNat(n)| >= 5
    decreases n
  {
    if n >= 10 {
      DecNatLength(n / 10);
      assert |DecNat(n)| == |DecNat(n / 10)| + 1;
    }
  }

  /** A date outside the years 1000..9999 does not print in the shape the
      field accepts, so the text it gives would be refused when read back. */
  lemma OtherYearsBreakShape(date: CalendarDate)
    requires date.year < 1000 || date.year > 9999
    requires 0 <= date.month0 <= 11 && 1 <= date.day <= 31
    ensures !IsIsoDateShape(ToIsoDate(date))
    ensures ParseIsoDate(Some(ToIsoDate(date)), (s: string) => Some(date)).None?
  {
    var r := ToIsoDate(date);
    TwoDigitsValue(date.month0 + 1);
    TwoDigitsValue(date.day);
    if date.year < 0 {
      assert r[0] == '-';
    } else {
      DecNatLength(date.year);
      assert |r| == |DecNat(date.year)| + 6;
    }
  }

  /** What typing `raw` in the web field passes to `onChange`, as a list of
      at most one call: blank text clears the date, text of the `YYYY-MM-DD`
      shape is passed on as typed, and anything else is ignored. */
  function WebChange(raw: string): seq<Option<string>> {
    if !HasText(raw) then [None]
    else if IsIsoDateShape(raw) then [Some(raw)]
    else []
  }

  /** The web field passes on nothing but an absent date or text of the
      `YYYY-MM-DD` shape, and it passes on every non-blank text of that shape
      unchanged. */
  lemma WebChangeMeaning(raw: string)
    ensures |WebChange(raw)| <= 1
    ensures WebChange(raw) == [None] <==> !HasText(raw)
    ensures WebChange(raw) == [Some(raw)] <==> IsIsoDateShape(raw)
    ensures forall c | c in WebChange(raw) :: c.None? || IsIsoDateShape(c.value)
  {
    if IsIsoDateShape(raw) {
      HasTextIff(raw);
      assert !IsSpace(raw[0]);
    }
  }

  /** The Android dialog's answer: only a `set` event with a date is passed
      on, as the list of `onChange` calls it makes. */
  function AndroidResult(isSet: bool, selected: Option<CalendarDate>): (calls: seq<Option<string>>)
    ensures |calls| <= 1
    ensures calls != [] <==> isSet && selected.Some?
    ensures calls != [] ==> calls[0] == Some(ToIsoDate(selected.value))
  {
    if isSet && selected.Some? then [Some(ToIsoDate(selected.value))] else []
  }

  /** The field's one piece of state: whether the inline (iOS) picker is
      shown. The `onChange` calls an event makes are its method's result. */
  class DatePickerField {
    var open: bool

    constructor ()
      ensures !open
    {
      open := false;
    }

    /** `handleOpenPicker`: Android shows its own dialog (answered by
        `AndroidResult`); elsewhere the inline picker opens. */
    method OpenPicker(android: bool)
      modifies this
      ensures open == (old(open) || !android)
    {
      if !android {
        open := true;
      }
    }

    /** A tap on the inline picker's backdrop closes it without a change. */
    method Dismiss()
      modifies this
      ensures !open
    {
      open := false;
    }

    /** `handleNativeChange`: a selected date is passed on and the picker
        closes; a dismissal changes nothing. */
    method NativeChange(selected: Option<CalendarDate>) returns (calls: seq<Option<string>>)
      modifies this
      ensures selected.Some? ==> calls == [Some(ToIsoDate(selected.value))] && !open
      ensures selected.None? ==> calls == [] && open == old(open)
    {
      calls := [];
      if selected.Some? {
        calls := [Some(ToIsoDate(selected.value))];
        open := false;
      }
    }
  }

  /** A picked date of a four-digit year prints as text the field accepts:
      read back, it is handed to the engine, whatever the engine, as that
      text with `T12:00:00`. */
  lemma EmittedDatesHaveShape(picked: CalendarDate, construct: string -> Option<CalendarDate>)
    requires 1000 <= picked.year <= 9999 && 0 <= picked.month0 <= 11 && 1 <= picked.day <= 31
    ensures IsIsoDateShape(ToIsoDate(picked))
    ensures ParseIsoDate(Some(ToIsoDate(picked)), construct) == construct(ToIsoDate(picked) + "T12:00:00")
  {
    IsoDateShape(picked);
  }
}
