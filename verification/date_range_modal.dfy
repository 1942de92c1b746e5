/** The trip-date dialog: its `isOpen` guard and the validation its
    `handleSubmit` runs before handing the dates to the caller. Dates are the
    `YYYY-MM-DD` strings of a date input and are compared as JavaScript
    strings. */
module DateRangeModal {
  import opened Records
  import opened Text

  const BothDatesMessage := "Please select both dates."
  const OrderMessage := "Start date cannot be after end date."

  /** The dialog's local state: the two date fields and the error line. */
  datatype ModalState = ModalState(startDate: string, endDate: string, error: string)

  /** The range handed to `onConfirm(startDate, endDate)`. */
  datatype DateRange = DateRange(start: string, end: string)

  /** The dialog's state after a submit and the call it made, if any. */
  datatype SubmitResult = SubmitResult(state: ModalState, confirmed: Option<DateRange>)

  /** `handleSubmit`. A closed dialog renders nothing, so there is no button
      to press: the state stays and no call is made. An empty date field
      (falsy string) is reported first, then a start date after the end
      date; otherwise `onConfirm` gets the dates as they are and the error
      line is left as it was. */
  function Submit(isOpen: bool, st: ModalState): (r: SubmitResult)
    ensures r.confirmed.Some? <==>
              isOpen && st.startDate != [] && st.endDate != [] && !JsLess(st.endDate, st.startDate)
    ensures r.confirmed.Some? ==> r.confirmed.value == DateRange(st.startDate, st.endDate) && r.state == st
    ensures !isOpen ==> r.state == st
    ensures isOpen && (st.startDate == [] || st.endDate == []) ==>
              r.state == st.(error := BothDatesMessage)
    ensures isOpen && st.startDate != [] && st.endDate != [] && JsLess(st.endDate, st.startDate) ==>
              r.state == st.(error := OrderMessage)
    ensures r.state.startDate == st.startDate && r.state.endDate == st.endDate
  {
    if !isOpen then SubmitResult(st, None)
    else if st.startDate == [] || st.endDate == [] then
      SubmitResult(st.(error := BothDatesMessage), None)
    else if JsLess(st.endDate, st.startDate) then
      SubmitResult(st.(error := OrderMessage), None)
    else SubmitResult(st, Some(DateRange(st.startDate, st.endDate)))
  }

  /* ---- string order of ISO dates ---- */

  /** A zero-padded `YYYY-MM-DD` date. */
  predicate IsIsoDate(s: string)
  {
    && |s| == 10 && s[4] == '-' && s[7] == '-'
    && AllDigits(s[..4]) && AllDigits(s[5..7]) && AllDigits(s[8..])
  }

  /** The date as one number, year, month and day in decreasing weight. */
  function DayNumber(s: string): nat
    requires IsIsoDate(s)
  {
    DecimalValue(s[..4]) * 10000 + DecimalValue(s[5..7]) * 100 + DecimalValue(s[8..])
  }

  /** Every character lies in the Basic Multilingual Plane. */
  predicate IsBmp(s: string)
  {
    forall i :: 0 <= i < |s| ==> s[i] as int < 0x1_0000
  }

  /** JavaScript string order on concatenations whose first parts have one
      length: the first parts decide unless they are equal. */
  lemma JsLessConcat(a1: string, b1: string, a2: string, b2: string)
    requires |a1| == |a2| && IsBmp(a1) && IsBmp(a2)
    ensures JsLess(a1 + b1, a2 + b2) <==> JsLess(a1, a2) || (a1 == a2 && JsLess(b1, b2))
  {
    Utf16Append(a1, b1);
    Utf16Append(a2, b2);
    Utf16Bmp(a1);
    Utf16Bmp(a2);
    LexLessAppend(Utf16(a1), Utf16(a2), Utf16(b1), Utf16(b2));
    if Utf16(a1) == Utf16(a2) {
      forall i | 0 <= i < |a1| ensures a1[i] == a2[i] {
        assert Utf16(a1)[i] == Utf16(a2)[i];
      }
    }
  }

  /** A two-digit value is below 100. */
  lemma TwoDigitBound(s: string)
    requires |s| == 2 && AllDigits(s)
    ensures DecimalValue(s) < 100
  {
    var t := s[..1];
    assert t[..0] == [] && t[0] == s[0] && s[..|s| - 1] == t;
    assert DecimalValue(t) == DigitValue(s[0]);
  }

  lemma DigitsAreBmp(s: string)
    requires AllDigits(s)
    ensures IsBmp(s)
  {
  }

  /** An ISO date split into its three fields and two dashes. */
  lemma IsoDateParts(s: string)
    requires IsIsoDate(s)
    ensures s == s[..4] + ("-" + (s[5..7] + ("-" + s[8..])))
    ensures IsBmp(s[..4]) && IsBmp(s[5..7]) && IsBmp(s[8..]) && IsBmp("-")
  {
    DigitsAreBmp(s[..4]);
    DigitsAreBmp(s[5..7]);
    DigitsAreBmp(s[8..]);
  }

  /** Three-field lexicographic order is the order of the weighted sum when
      the two lower fields stay below 100. */
  lemma WeightedOrder(y1: nat, m1: nat, d1: nat, y2: nat, m2: nat, d2: nat)
    requires m1 < 100 && d1 < 100 && m2 < 100 && d2 < 100
    ensures y1 * 10000 + m1 * 100 + d1 < y2 * 10000 + m2 * 100 + d2
            <==> y1 < y2 || (y1 == y2 && (m1 < m2 || (m1 == m2 && d1 < d2)))
  {
    if y1 < y2 {
      assert y1 * 10000 + 10000 <= y2 * 10000;
    } else if y2 < y1 {
      assert y2 * 10000 + 10000 <= y1 * 10000;
    } else if m1 < m2 {
      assert m1 * 100 + 100 <= m2 * 100;
    } else if m2 < m1 {
      assert m2 * 100 + 100 <= m1 * 100;
    }
  }

  /** For two ISO dates, the string `<` is chronological order. */
  lemma IsoDateOrder(a: string, b: string)
    requires IsIsoDate(a) && IsIsoDate(b)
    ensures JsLess(a, b) <==> DayNumber(a) < DayNumber(b)
  {
    IsoDateParts(a);
    IsoDateParts(b);
    var ya, ma, da := a[..4], a[5..7], a[8..];
    var yb, mb, db := b[..4], b[5..7], b[8..];
    JsLessConcat(ya, "-" + (ma + ("-" + da)), yb, "-" + (mb + ("-" + db)));
    JsLessConcat("-", ma + ("-" + da), "-", mb + ("-" + db));
    JsLessConcat(ma, "-" + da, mb, "-" + db);
    JsLessConcat("-", da, "-", db);
    assert !JsLess("-", "-") by {
      assert Utf16("-") == Utf16([]) + CodeUnits('-');
    }
    DigitStringOrder(ya, yb);
    DigitStringOrder(ma, mb);
    DigitStringOrder(da, db);
    TwoDigitBound(ma);
    TwoDigitBound(mb);
    TwoDigitBound(da);
    TwoDigitBound(db);
    WeightedOrder(DecimalValue(ya), DecimalValue(ma), DecimalValue(da),
                  DecimalValue(yb), DecimalValue(mb), DecimalValue(db));
  }

  /** With two ISO dates in an open dialog, the range is confirmed exactly
      when the start is not later than the end. */
  lemma SubmitIsChronological(st: ModalState)
    requires IsIsoDate(st.startDate) && IsIsoDate(st.endDate)
    ensures Submit(true, st).confirmed.Some? <==> DayNumber(st.startDate) <= DayNumber(st.endDate)
  {
    IsoDateOrder(st.endDate, st.startDate);
  }

  /** The missing-date message wins over the order message: a dialog with
      an empty start date reports it whatever the end date is. */
  lemma MissingDateFirst(st: ModalState)
    requires st.startDate == [] || st.endDate == []
    ensures Submit(true, st).state.error == BothDatesMessage
    ensures Submit(true, st).confirmed == None
  {
  }
}
