/**
 * The contact form of frontend/src/components/ContactDialog.tsx: `toInputDate`,
 * which turns whatever a contact's date field holds into the `YYYY-MM-DD`
 * text of an `<input type="date">` (or `""`), the prefill effect, and
 * `handleSubmit`. `new Date(text)` on free text is the parameter `parseDate`:
 * the time value it yields, or `None` for an Invalid Date.
 */
module ContactDialog {
  import opened Wrappers
  import opened Strings
  import opened Calendar
  import opened FrontendTypes

  /** The JavaScript values `toInputDate` can receive; an object is known by the text `String(obj)` gives. */
  datatype JsValue =
    | Undefined
    | Null
    | Bool(b: bool)
    | Num(x: real)
    | NotANumber
    | Infinite(positive: bool)
    | Str(s: string)
    | Obj(text: string)

  /** `!value`. */
  predicate Falsy(v: JsValue) {
    v == Undefined || v == Null || v == Bool(false) || v == Num(0.0) || v == NotANumber || v == Str("")
  }

  /** `typeof value === "number"`. */
  predicate IsNumber(v: JsValue) {
    v.Num? || v.NotANumber? || v.Infinite?
  }

  /** `String(value)` for a value that is not a number. */
  function NonNumberText(v: JsValue): string
    requires !IsNumber(v)
  {
    match v
    case Undefined => "undefined"
    case Null => "null"
    case Bool(b) => if b then "true" else "false"
    case Str(s) => s
    case Obj(text) => text
  }

  /** `/^\d+$/.test(s)`: one or more ASCII digits and nothing else. */
  predicate IsDigitString(s: string) {
    |s| > 0 && AllDigits(s)
  }

  /** A time value `Date` accepts. */
  type TimeValue = t: int | InDateRange(t)

  /** ToIntegerOrInfinity on a finite number: truncation toward zero. */
  function Truncate(x: real): (n: int)
    ensures x >= 0.0 ==> n as real <= x < n as real + 1.0
    ensures x < 0.0 ==> n as real - 1.0 < x <= n as real
  {
    if x >= 0.0 then x.Floor else -((-x).Floor)
  }

  /** `new Date(x).getTime()` for a number: NaN outside the range, otherwise `x` truncated. */
  function TimeOfNumber(v: JsValue): (t: Option<TimeValue>)
    requires IsNumber(v)
    ensures t.Some? <==> v.Num? && -MaxTimeValue as real <= v.x <= MaxTimeValue as real
    ensures t.Some? ==> t.value == Truncate(v.x)
  {
    match v
    case Num(x) =>
      if -MaxTimeValue as real <= x <= MaxTimeValue as real then Some(Truncate(x)) else None
    case NotANumber => None
    case Infinite(_) => None
  }

  /**
   * `new Date(Number(s)).getTime()` for a digit string. Below 2^53 the double
   * `Number(s)` is the decimal value exactly, and above the range it stays above
   * it, so rounding never matters here.
   */
  function TimeOfDigits(s: string): (t: Option<TimeValue>)
    requires AllDigits(s)
    ensures t.Some? <==> ParseDecimal(s) <= MaxTimeValue
    ensures t.Some? ==> t.value == ParseDecimal(s)
  {
    var n := ParseDecimal(s);
    if n <= MaxTimeValue then Some(n) else None
  }

  /** `new Date(text).getTime()` as `parseDate` gives it, with the range check of `Date`. */
  function TimeOfText(parsed: Option<int>): (t: Option<TimeValue>)
    ensures t.Some? <==> parsed.Some? && InDateRange(parsed.value)
  {
    match parsed
    case Some(t) => if InDateRange(t) then Some(t) else None
    case None => None
  }

  /** `d.toISOString().slice(0, 10)`, or `""` when the time is NaN. */
  function DatePart(t: Option<TimeValue>): (r: string)
    ensures t.None? <==> r == ""
    ensures r == "" || IsIsoDateShape(r) || r[0] == '+' || r[0] == '-'
    ensures t.Some? && 0 <= UtcDate(t.value).year <= 9999 ==> r == IsoCalendarDate(UtcDate(t.value))
  {
    match t
    case None => ""
    case Some(time) =>
      var d := UtcDate(time);
      if 0 <= d.year <= 9999 then
        IsoStringDatePrefix(time);
        IsoCalendarDateShape(d);
        IsoString(time)[..10]
      else
        IsoString(time)[..10]
  }

  /** `toInputDate(value)`. */
  function ToInputDate(v: JsValue, parseDate: string -> Option<int>): (r: string)
    ensures Falsy(v) ==> r == ""
    ensures !Falsy(v) && v.Str? && IsIsoDateShape(v.s) ==> r == v.s
    ensures !IsNumber(v) && !v.Str? && !IsDigitString(NonNumberText(v)) ==> r == ""
    ensures r == "" || IsIsoDateShape(r) || r[0] == '+' || r[0] == '-'
  {
    if Falsy(v) then ""
    else if IsNumber(v) then DatePart(TimeOfNumber(v))
    else if IsDigitString(NonNumberText(v)) then DatePart(TimeOfDigits(NonNumberText(v)))
    else if v.Str? then
      if IsIsoDateShape(v.s) then v.s else DatePart(TimeOfText(parseDate(v.s)))
    else ""
  }

  /**
   * A non-zero time value in the range, as a number, gives the UTC calendar
   * date of that instant; the number 0 is falsy and gives `""`.
   */
  lemma ToInputDateOfNumber(t: int, parseDate: string -> Option<int>)
    requires InDateRange(t) && 0 <= UtcDate(t).year <= 9999
    ensures t != 0 ==> ToInputDate(Num(t as real), parseDate) == IsoCalendarDate(UtcDate(t))
    ensures t == 0 ==> ToInputDate(Num(t as real), parseDate) == ""
  {
    if t != 0 {
      var v := Num(t as real);
      assert !Falsy(v);
      assert Truncate(t as real) == t;
      assert TimeOfNumber(v) == Some(t);
    }
  }

  /** The digit string of a time value in the range gives the UTC date of that instant, `"0"` included. */
  lemma ToInputDateOfDigits(t: nat, parseDate: string -> Option<int>)
    requires t <= MaxTimeValue && UtcDate(t).year <= 9999
    ensures ToInputDate(Str(Decimal(t)), parseDate) == IsoCalendarDate(UtcDate(t))
  {
    var s := Decimal(t);
    var v := Str(s);
    assert ToInputDate(v, parseDate) == DatePart(TimeOfDigits(s)) by {
      assert !Falsy(v) && !IsNumber(v);
      assert NonNumberText(v) == s && IsDigitString(s);
    }
    assert TimeOfDigits(s) == Some(t) by {
      ParseDecimalOfDecimal(t);
    }
    assert DatePart(Some(t)) == IsoCalendarDate(UtcDate(t)) by {
      UtcDateFromZero(t);
    }
  }

  /** An instant not before 1970 falls in a year not before 1970. */
  lemma UtcDateFromZero(t: nat)
    requires t <= MaxTimeValue
    ensures UtcDate(t).year >= 1970
  {
    var d := UtcDate(t);
    DayNumberInYear(d);
    if d.year < 1970 {
      YearsIncrease(d.year, 1970);
    }
  }

  /** A timestamp past the range of `Date` gives `""`, as a number and as a digit string. */
  lemma ToInputDateOutOfRange(n: nat, parseDate: string -> Option<int>)
    requires n > MaxTimeValue
    ensures ToInputDate(Num(n as real), parseDate) == ""
    ensures ToInputDate(Str(Decimal(n)), parseDate) == ""
  {
    ParseDecimalOfDecimal(n);
    assert !Falsy(Str(Decimal(n)));
    assert TimeOfDigits(Decimal(n)) == None;
  }

  /** A non-empty output whose year has four digits is a fixed point of `toInputDate`. */
  lemma ToInputDateIdempotent(v: JsValue, parseDate: string -> Option<int>)
    requires ToInputDate(v, parseDate) != "" && IsDigit(ToInputDate(v, parseDate)[0])
    ensures var r := ToInputDate(v, parseDate); ToInputDate(Str(r), parseDate) == r
  {
    var r := ToInputDate(v, parseDate);
    assert IsIsoDateShape(r);
    assert !IsDigit(r[4]);
    assert !IsDigitString(r);
  }

  /** The text fields of the form. */
  datatype ContactForm = ContactForm(name: string, phoneNumber: string, birthday: string, anniversary: string)

  /** An optional string field as the value `contact.birthday` holds. */
  function FieldValue(field: Option<string>): JsValue {
    match field
    case None => Undefined
    case Some(s) => Str(s)
  }

  /** The effect run on open: the edited contact's fields, dates through `toInputDate`, or an empty form. */
  function Prefill(contact: Option<Contact>, parseDate: string -> Option<int>): (form: ContactForm)
    ensures contact.None? ==> form == ContactForm("", "", "", "")
    ensures contact.Some? ==> form.name == contact.value.name && form.phoneNumber == contact.value.phoneNumber
    ensures contact.Some? ==> form.birthday == ToInputDate(FieldValue(contact.value.birthday), parseDate)
    ensures contact.Some? ==> form.anniversary == ToInputDate(FieldValue(contact.value.anniversary), parseDate)
  {
    match contact
    case None => ContactForm("", "", "", "")
    case Some(c) =>
      ContactForm(c.name, c.phoneNumber,
                  ToInputDate(FieldValue(c.birthday), parseDate),
                  ToInputDate(FieldValue(c.anniversary), parseDate))
  }

  /** `formData.birthday || undefined`. */
  function OrUndefined(s: string): (r: Option<string>)
    ensures r.None? <==> s == ""
    ensures r.Some? ==> r.value == s
  {
    if s == "" then None else Some(s)
  }

  datatype DialogEvent = Save(payload: ContactPayload) | OpenChange(open: bool)

  /** `handleSubmit`: one `onSave` with the normalised record, then `onOpenChange(false)`. */
  function Submit(form: ContactForm, contact: Option<Contact>): (events: seq<DialogEvent>)
    ensures |events| == 2 && events[0].Save? && events[1] == OpenChange(false)
    ensures var p := events[0].payload;
      && p.id == (if contact.Some? then Some(contact.value.id) else None)
      && p.name == form.name && p.phoneNumber == form.phoneNumber
      && (p.birthday.None? <==> form.birthday == "") && (p.birthday.Some? ==> p.birthday.value == form.birthday)
      && (p.anniversary.None? <==> form.anniversary == "") && (p.anniversary.Some? ==> p.anniversary.value == form.anniversary)
  {
    var id := match contact case None => None case Some(c) => Some(c.id);
    [Save(ContactPayload(id, form.name, form.phoneNumber, OrUndefined(form.birthday), OrUndefined(form.anniversary))),
     OpenChange(false)]
  }

  /**
   * Opening a contact and saving it unchanged keeps its id, name and phone
   * number, keeps a date already written `YYYY-MM-DD`, and keeps a missing date
   * missing.
   */
  lemma EditRoundTrip(c: Contact, parseDate: string -> Option<int>)
    ensures var p := Submit(Prefill(Some(c), parseDate), Some(c))[0].payload;
      && p.id == Some(c.id) && p.name == c.name && p.phoneNumber == c.phoneNumber
      && (c.birthday.None? ==> p.birthday.None?)
      && (c.birthday.Some? && IsIsoDateShape(c.birthday.value) ==> p.birthday == c.birthday)
      && (c.anniversary.None? ==> p.anniversary.None?)
      && (c.anniversary.Some? && IsIsoDateShape(c.anniversary.value) ==> p.anniversary == c.anniversary)
  {
    if c.birthday.Some? && IsIsoDateShape(c.birthday.value) {
      assert !Falsy(FieldValue(c.birthday));
    }
    if c.anniversary.Some? && IsIsoDateShape(c.anniversary.value) {
      assert !Falsy(FieldValue(c.anniversary));
    }
  }
}
