/** The typed date field (components/ManualDateInput.tsx): the user types the digits of
    `DD MM YYYY`, the field shows them masked as `DD / MM / YYYY`, and once eight digits are
    there it either reports an error or hands the stored `YYYY-MM-DD` text to its owner.
    The owner's `onChange` callback is modelled by the method's result: the text it would be
    called with, or `None` when it is not called. */
module ManualDateInput {
  import opened Wrappers
  import opened Strings
  import opened DateMath
  import opened Records

  datatype DateError = InvalidDate | InvalidDayForMonth | FutureDate

  /** The message shown for an error (ManualDateInput.tsx:64, 71, 79): English for the
      English interface, Telugu otherwise. */
  function Message(e: DateError, lang: Language): string {
    match e
    case InvalidDate => if lang == En then "Invalid date" else "చెల్లని తేదీ"
    case InvalidDayForMonth => if lang == En then "Invalid day for month" else "ఈ నెలకు చెల్లని తేదీ"
    case FutureDate => if lang == En then "Future date not allowed" else "భవిష్యత్తు తేదీ అనుమతించబడదు"
  }

  /** `toDisplayDigits(val)` (ManualDateInput.tsx:20-25): the three `-` parts, day first. */
  function ToDisplayDigits(val: string): (r: string)
    ensures val == "" || |Split(val, "-")| != 3 ==> r == ""
    ensures |Split(val, "-")| == 3 ==>
              r == Split(val, "-")[2] + Split(val, "-")[1] + Split(val, "-")[0]
  {
    if val == "" then ""
    else
      var parts := Split(val, "-");
      if |parts| != 3 then "" else parts[2] + parts[1] + parts[0]
  }

  /** The stored text of a date is shown as its digits, day, month, year. */
  lemma DisplayDigitsOfIso(d: Date)
    requires ValidDate(d) && FourDigitYear(d)
    ensures ToDisplayDigits(FormatIso(d)) == Pad(d.day, 2) + Pad(d.month, 2) + Pad(d.year, 4)
  {
    var y, m, dd := Pad(d.year, 4), Pad(d.month, 2), Pad(d.day, 2);
    DigitsHaveNoDash(y);
    DigitsHaveNoDash(m);
    DigitsHaveNoDash(dd);
    SplitDashed(y, m, dd);
  }

  lemma DigitsHaveNoDash(s: string)
    requires AllDigits(s)
    ensures '-' !in s
  {
    assert !IsDigit('-');
  }

  /** Three dash-free parts joined by dashes split back into those parts. */
  lemma SplitDashed(y: string, m: string, dd: string)
    requires '-' !in y && '-' !in m && '-' !in dd
    ensures Split(y + "-" + m + "-" + dd, "-") == [y, m, dd]
  {
    var sep := ['-'];
    var tail := m + sep + dd;
    assert y + "-" + m + "-" + dd == y + sep + tail;
    SplitCharSeparator(y, '-', tail);
    SplitCharSeparator(m, '-', dd);
    NotContainsByChar(dd, sep, 0);
    SplitWithout(dd, sep);
  }

  /** The separator the mask puts between the parts of a date. */
  const MaskSeparator: string := " / "

  /** The digits of masked parts are the parts themselves, one after the other. */
  lemma KeepDigitsOfMask(d: string, m: string, y: string)
    requires AllDigits(d) && AllDigits(m) && AllDigits(y)
    ensures KeepDigits(d + MaskSeparator + m) == d + m
    ensures KeepDigits(d + MaskSeparator + m + MaskSeparator + y) == d + m + y
  {
    var sep := MaskSeparator;
    KeepDigitsOfNone(sep);
    KeepDigitsOfDigits(d);
    KeepDigitsOfDigits(m);
    KeepDigitsOfDigits(y);
    KeepDigitsConcat(d, sep);
    KeepDigitsConcat(d + sep, m);
    KeepDigitsConcat(d + sep + m, sep);
    KeepDigitsConcat(d + sep + m + sep, y);
  }

  /** `formatDisplay(digits)` (ManualDateInput.tsx:37-46): the `DD / MM / YYYY` mask, growing
      as digits arrive. Retyping what it shows gives the same digits back. */
  method FormatDisplay(digits: string) returns (result: string)
    ensures AllDigits(digits) && |digits| <= 8 ==> Take(KeepDigits(result), 8) == digits
    ensures |digits| <= 2 ==> result == digits
    ensures |digits| > 2 ==> |result| >= 5 && result[..2] == digits[..2] && result[2..5] == " / "
    ensures |digits| > 4 ==> |result| >= 10 && result[5..7] == digits[2..4] && result[7..10] == " / "
    ensures 2 < |digits| <= 4 ==> result == digits[..2] + " / " + digits[2..]
    ensures 4 < |digits| <= 8 ==> result == digits[..2] + " / " + digits[2..4] + " / " + digits[4..]
    ensures 8 < |digits| ==> result == digits[..2] + " / " + digits[2..4] + " / " + digits[4..8]
  {
    var d := Slice(digits, 0, 2);
    var m := Slice(digits, 2, 4);
    var y := Slice(digits, 4, 8);
    result := d;
    if |digits| > 2 {
      result := result + MaskSeparator + m;
    }
    if |digits| > 4 {
      result := result + MaskSeparator + y;
    }
    if |digits| > 4 {
      assert result == d + MaskSeparator + m + MaskSeparator + y;
      assert result[..2] == d && result[2..5] == MaskSeparator && result[5..7] == m && result[7..10] == MaskSeparator;
    } else if |digits| > 2 {
      assert result == d + MaskSeparator + m;
      assert result[..2] == d && result[2..5] == MaskSeparator;
    }
    if AllDigits(digits) && |digits| <= 8 {
      KeepDigitsOfMask(d, m, y);
      if |digits| > 4 {
        assert digits == digits[..2] + digits[2..4] + digits[4..];
      } else if |digits| > 2 {
        assert digits == digits[..2] + digits[2..];
      } else {
        KeepDigitsOfDigits(d);
        assert digits == d;
      }
      assert KeepDigits(result) == digits;
    }
  }

  /** `e.target.value.replace(/\D/g, '').slice(0, 8)`: the digits typed, at most eight. */
  function RawDigits(typed: string): (raw: string)
    ensures AllDigits(raw) && |raw| <= 8
  {
    Take(KeepDigits(typed), 8)
  }

  /** The date eight digits spell, read as `DD MM YYYY`. */
  function TypedDate(raw: string): Date
    requires AllDigits(raw) && |raw| == 8
  {
    Date(DigitsValue(raw[4..8]), DigitsValue(raw[2..4]), DigitsValue(raw[..2]))
  }

  /** `${y}-${m}-${d}` of the eight digits. */
  function IsoText(raw: string): string
    requires |raw| == 8
  {
    raw[4..8] + "-" + raw[2..4] + "-" + raw[..2]
  }

  /** For eight digits spelling a real day, the text built from them is that day's stored
      form and is shown again as the same digits. */
  lemma IsoTextOfDate(raw: string)
    requires AllDigits(raw) && |raw| == 8 && ValidDate(TypedDate(raw))
    ensures FourDigitYear(TypedDate(raw))
    ensures IsoText(raw) == FormatIso(TypedDate(raw))
    ensures ToDisplayDigits(IsoText(raw)) == raw
  {
    var date := TypedDate(raw);
    var y, m, dd := raw[4..8], raw[2..4], raw[..2];
    assert Pow10(|y|) == 10000;
    PadValue(y);
    PadValue(m);
    PadValue(dd);
    IsoOfParts(date, y, m, dd);
    EightDigitParts(raw);
  }

  lemma EightDigitParts(raw: string)
    requires |raw| == 8
    ensures raw == raw[..2] + raw[2..4] + raw[4..8]
  {
  }

  lemma IsoOfParts(d: Date, y: string, m: string, dd: string)
    requires ValidDate(d) && FourDigitYear(d)
    requires y == Pad(d.year, 4) && m == Pad(d.month, 2) && dd == Pad(d.day, 2)
    ensures FormatIso(d) == y + "-" + m + "-" + dd
    ensures ToDisplayDigits(FormatIso(d)) == dd + m + y
  {
    DisplayDigitsOfIso(d);
  }

  /** What a change of the field leads to: a text handed to the owner, an error, or neither. */
  datatype Outcome = Emit(iso: string) | Reject(error: DateError) | Quiet

  /** The decision of `handleChange` (ManualDateInput.tsx:49-86). The month and day parts are
      two characters already, so their `padStart(2, '0')` changes nothing; `isoDate > todayStr`
      is the string order. */
  function Decide(typed: string, todayStr: string, allowFuture: bool): Outcome {
    var raw := RawDigits(typed);
    if |raw| == 8 then
      var day, month, year := DigitsValue(raw[..2]), DigitsValue(raw[2..4]), DigitsValue(raw[4..8]);
      if day < 1 || day > 31 || month < 1 || month > 12 || year < 1900 then Reject(InvalidDate)
      else if day > DaysInMonth(year, month) then Reject(InvalidDayForMonth)
      else
        var iso := IsoText(raw);
        if !allowFuture && StrLess(todayStr, iso) then Reject(FutureDate) else Emit(iso)
    else if |raw| == 0 then Emit("")
    else Quiet
  }

  /** Eight digits are refused as invalid exactly when they do not spell a real day of a
      year from 1900 on. */
  lemma ValidityRule(typed: string, todayStr: string, allowFuture: bool)
    requires |RawDigits(typed)| == 8
    ensures var date := TypedDate(RawDigits(typed));
            var o := Decide(typed, todayStr, allowFuture);
            (o == Reject(InvalidDate) || o == Reject(InvalidDayForMonth)) <==> !(ValidDate(date) && date.year >= 1900)
  {
  }

  /** A handed-over text is the stored form of the typed date, parses back to it, and is
      shown again as the same digits. */
  lemma AcceptedIsTypedDate(typed: string, todayStr: string, allowFuture: bool)
    requires |RawDigits(typed)| == 8 && Decide(typed, todayStr, allowFuture).Emit?
    ensures var date := TypedDate(RawDigits(typed));
            var iso := Decide(typed, todayStr, allowFuture).iso;
            && ValidDate(date) && FourDigitYear(date) && date.year >= 1900
            && iso == FormatIso(date)
            && ParseIso(iso) == Some(date)
            && ToDisplayDigits(iso) == RawDigits(typed)
  {
    var raw := RawDigits(typed);
    IsoTextOfDate(raw);
    ParseFormatIso(TypedDate(raw));
  }

  /** With `todayStr` the stored form of today, the future check refuses exactly the real
      days after today, and every other real day from 1900 on is handed over. */
  lemma FutureRule(typed: string, today: Date, allowFuture: bool)
    requires ValidDate(today) && FourDigitYear(today)
    requires |RawDigits(typed)| == 8
    ensures var date := TypedDate(RawDigits(typed));
            var o := Decide(typed, FormatIso(today), allowFuture);
            && (o == Reject(FutureDate) <==> ValidDate(date) && date.year >= 1900 && !allowFuture && Before(today, date))
            && (o.Emit? <==> ValidDate(date) && date.year >= 1900 && (allowFuture || !Before(today, date)))
  {
    var raw := RawDigits(typed);
    var date := TypedDate(raw);
    if ValidDate(date) && date.year >= 1900 {
      IsoTextOfDate(raw);
      IsoOrderIsChronological(today, date);
    }
  }

  /** Fewer than eight digits hand nothing over, except that clearing the field hands over
      the empty text. */
  lemma ShortInput(typed: string, todayStr: string, allowFuture: bool)
    ensures |RawDigits(typed)| == 0 ==> Decide(typed, todayStr, allowFuture) == Emit("")
    ensures 0 < |RawDigits(typed)| < 8 ==> Decide(typed, todayStr, allowFuture) == Quiet
  {
  }

  /** The digits a stored date is shown as are eight digits that spell that date. */
  lemma TypedDigitsOfDate(d: Date)
    requires ValidDate(d) && FourDigitYear(d)
    ensures var raw := ToDisplayDigits(FormatIso(d));
            AllDigits(raw) && |raw| == 8 && RawDigits(raw) == raw && TypedDate(raw) == d
  {
    DisplayDigitsOfIso(d);
    var raw := Pad(d.day, 2) + Pad(d.month, 2) + Pad(d.year, 4);
    KeepDigitsOfDigits(raw);
    assert raw[..2] == Pad(d.day, 2) && raw[2..4] == Pad(d.month, 2) && raw[4..8] == Pad(d.year, 4);
    ValuePad(d.day, 2);
    ValuePad(d.month, 2);
    ValuePad(d.year, 4);
  }

  /** A stored date from 1900 on, shown as digits and typed again, is handed back unchanged. */
  lemma RetypeStoredDate(d: Date, todayStr: string)
    requires ValidDate(d) && FourDigitYear(d) && d.year >= 1900
    ensures Decide(ToDisplayDigits(FormatIso(d)), todayStr, true) == Emit(FormatIso(d))
  {
    var raw := ToDisplayDigits(FormatIso(d));
    TypedDigitsOfDate(d);
    IsoTextOfDate(raw);
  }

  /** Typing a stored date's digits into a field on a day from which that date is not in the
      future, or into a field that accepts future dates, hands the same stored text back. */
  lemma RetypeStoredDateAnyMode(d: Date, today: Date, allowFuture: bool)
    requires ValidDate(d) && FourDigitYear(d) && d.year >= 1900
    requires ValidDate(today) && FourDigitYear(today)
    requires allowFuture || !Before(today, d)
    ensures Decide(ToDisplayDigits(FormatIso(d)), FormatIso(today), allowFuture) == Emit(FormatIso(d))
  {
    var raw := ToDisplayDigits(FormatIso(d));
    TypedDigitsOfDate(d);
    FutureRule(raw, today, allowFuture);
    AcceptedIsTypedDate(raw, FormatIso(today), allowFuture);
  }

  /** The hint shown while a date is only partly typed (ManualDateInput.tsx:111-113). */
  function Hint(lang: Language): string {
    if lang == En then "Finish Date" else "పూర్తి తేదీ"
  }

  /** The line under the field (ManualDateInput.tsx:108-114): the error when there is one;
      otherwise the hint while one to seven digits are typed; otherwise nothing. English for
      the English interface, Telugu otherwise. */
  function ErrorText(error: Option<DateError>, inputValue: string, lang: Language): (t: string)
    ensures t == "" <==> error.None? && (|inputValue| == 0 || |inputValue| >= 8)
    ensures error.Some? && lang == En ==> t == Message(error.value, En)
    ensures error.Some? && lang != En ==> t == Message(error.value, Te)
    ensures error.None? && 0 < |inputValue| < 8 ==> t == (if lang == En then "Finish Date" else "పూర్తి తేదీ")
  {
    match error
    case Some(e) => Message(e, lang)
    case None => if 0 < |inputValue| < 8 then Hint(lang) else ""
  }

  /** In either language the three errors show three different messages. */
  lemma MessagesTellErrorsApart(e1: DateError, e2: DateError, lang: Language)
    requires e1 != e2
    ensures Message(e1, lang) != Message(e2, lang)
  {
    assert |Message(e1, lang)| != |Message(e2, lang)|;
  }

  /** The hint reads unlike every error message of the same language. */
  lemma HintIsNoMessage(e: DateError, lang: Language)
    ensures Hint(lang) != Message(e, lang)
  {
    assert |Hint(lang)| != |Message(e, lang)|;
  }

  /** The field's own state: the digits typed and the error shown. */
  class DateField {
    var inputValue: string
    var error: Option<DateError>

    /** The field opens on the digits of its stored value (ManualDateInput.tsx:27-28). */
    constructor(value: string)
      ensures inputValue == ToDisplayDigits(value) && error == None
    {
      inputValue := ToDisplayDigits(value);
      error := None;
    }

    /** The effect on a new stored value (ManualDateInput.tsx:30-35): the digits are replaced
        only when they differ from those typed. */
    method Sync(value: string)
      modifies this
      ensures inputValue == (if ToDisplayDigits(value) != KeepDigits(old(inputValue))
                             then ToDisplayDigits(value) else old(inputValue))
      ensures error == old(error)
    {
      var digits := ToDisplayDigits(value);
      if digits != KeepDigits(inputValue) {
        inputValue := digits;
      }
    }

    /** `handleChange` (ManualDateInput.tsx:48-87). */
    method HandleChange(typed: string, todayStr: string, allowFuture: bool) returns (emitted: Option<string>)
      modifies this
      ensures inputValue == RawDigits(typed)
      ensures match Decide(typed, todayStr, allowFuture)
              case Emit(iso) => emitted == Some(iso) && error == None
              case Reject(e) => emitted == None && error == Some(e)
              case Quiet => emitted == None && error == None
    {
      var raw := Take(KeepDigits(typed), 8);
      inputValue := raw;
      error := None;
      emitted := None;
      if |raw| == 8 {
        var d := raw[..2];
        var m := raw[2..4];
        var y := raw[4..8];
        var day := DigitsValue(d);
        var month := DigitsValue(m);
        var year := DigitsValue(y);
        if day < 1 || day > 31 || month < 1 || month > 12 || year < 1900 {
          error := Some(InvalidDate);
          return;
        }
        var maxDays := DaysInMonth(year, month);
        if day > maxDays {
          error := Some(InvalidDayForMonth);
          return;
        }
        var isoDate := y + "-" + m + "-" + d;
        if !allowFuture && StrLess(todayStr, isoDate) {
          error := Some(FutureDate);
          return;
        }
        emitted := Some(isoDate);
      } else if |raw| == 0 {
        emitted := Some("");
      }
    }
  }
}
