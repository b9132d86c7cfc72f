/** Frontend helpers: the colour pair shown for a user id, and the report-settings form
    (turning a stored setting into form fields and the form back into the request body).
    JavaScript numbers are modelled as integers. */
module Frontend {
  import opened Wrappers
  import opened Strings

  // ---------------------------------------------------------------------------------------
  // colorForId

  datatype ColorPair = ColorPair(bgClass: string, textClass: string)

  const Palette: seq<ColorPair> := [
    ColorPair("bg-chart-1", "text-white"),
    ColorPair("bg-chart-2", "text-white"),
    ColorPair("bg-chart-3", "text-black"),
    ColorPair("bg-chart-4", "text-white"),
    ColorPair("bg-chart-5", "text-white")]

  const NoIdPair := ColorPair("bg-secondary", "text-secondary-foreground")

  function Abs(i: int): nat { if i < 0 then -i else i }

  /** colorForId: the secondary pair without an id, else the palette entry at |id| mod 5. */
  function ColorForId(id: Option<int>): (r: ColorPair)
    ensures id.None? ==> r == NoIdPair
    ensures id.Some? ==> r in Palette && r == Palette[Abs(id.value) % |Palette|]
  {
    if id.None? then NoIdPair else Palette[Abs(id.value) % |Palette|]
  }

  /** Ids five apart on the same side of zero share a colour, and so do id and -id. (Across
      zero the rule is |id| mod 5: -2 gets the colour of 2, not of 3.) */
  lemma ColorForIdPeriodic(i: nat, k: nat)
    ensures ColorForId(Some(i + 5 * k)) == ColorForId(Some(i))
    ensures ColorForId(Some(-(i as int))) == ColorForId(Some(i))
  {
    assert (i + 5 * k) % 5 == i % 5;
  }

  // ---------------------------------------------------------------------------------------
  // The report-settings form

  /** A stored setting as the page receives it; fields that the code reads with `??` or a
      truthiness test may be absent. */
  datatype StoredSetting = StoredSetting(
    id: int,
    scheduleType: Option<string>,
    dayOfMonth: Option<int>,
    dayOfWeek: Option<int>,
    timeOfDay: Option<string>,
    timezone: Option<string>,
    lookerUrl: Option<string>,
    active: Option<bool>)

  /** The form's fields, all text but the checkbox. */
  datatype FormState = FormState(
    scheduleType: string,
    dayOfMonth: string,
    dayOfWeek: string,
    timeOfDay: string,
    timezone: string,
    lookerUrl: string,
    active: bool)

  const EmptyForm := FormState("monthly", "1", "1", "08:00", "UTC", "", false)

  /** The backend's default time of day. */
  const DefaultTime := "08:00:00"

  /** normalizeTime: an empty value is the default time; 'HH:MM' gets ':00'; anything else
      is sent as it is. */
  function NormalizeTime(value: string): (r: string)
    ensures value == "" ==> r == DefaultTime
    ensures |value| == 5 ==> r == value + ":00"
    ensures value != "" && |value| != 5 ==> r == value
  {
    if value == "" then DefaultTime
    else if |value| == 5 then value + ":00"
    else value
  }

  /** `slice(0, 5)`. */
  function First5(s: string): (r: string)
    ensures |r| == (if |s| < 5 then |s| else 5) && r == s[..|r|]
  {
    if |s| < 5 then s else s[..5]
  }

  /** `n ? String(n) : "1"`: a missing or zero day shows as "1". */
  function DayField(n: Option<int>): (r: string)
    ensures n.None? || n.value == 0 ==> r == "1"
    ensures n.Some? && n.value != 0 ==> r == IntToDecimal(n.value)
  {
    if n.None? || n.value == 0 then "1" else IntToDecimal(n.value)
  }

  /** buildFormState. */
  function BuildFormState(setting: Option<StoredSetting>): (f: FormState)
    ensures setting.None? ==> f == EmptyForm
    ensures setting.Some? ==>
      && f.timeOfDay == (if setting.value.timeOfDay.Some? then First5(setting.value.timeOfDay.value) else "08:00")
      && f.dayOfMonth == DayField(setting.value.dayOfMonth)
      && f.dayOfWeek == DayField(setting.value.dayOfWeek)
  {
    if setting.None? then EmptyForm
    else
      var s := setting.value;
      FormState(s.scheduleType.GetOr("monthly"), DayField(s.dayOfMonth), DayField(s.dayOfWeek),
                if s.timeOfDay.Some? then First5(s.timeOfDay.value) else "08:00",
                s.timezone.GetOr("UTC"), s.lookerUrl.GetOr(""), s.active.GetOr(false))
  }

  /** `Number(s)` for the texts the day fields hold: optional surrounding white space, an
      optional sign and decimal digits; the empty text is 0. Any other text is NaN, which
      JSON sends as null, so None stands for both. */
  function NumberOf(s: string): (r: Option<int>)
  {
    var t := Trim(s);
    if t == "" then Some(0)
    else if AllDigits(t) then Some(DigitsValue(t))
    else if |t| > 1 && t[0] == '-' && AllDigits(t[1..]) then Some(-(DigitsValue(t[1..]) as int))
    else if |t| > 1 && t[0] == '+' && AllDigits(t[1..]) then Some(DigitsValue(t[1..]))
    else None
  }

  /** The request body handleSubmit sends. */
  datatype Payload = Payload(
    scheduleType: string,
    dayOfMonth: Option<int>,
    dayOfWeek: Option<int>,
    timeOfDay: string,
    timezone: string,
    lookerUrl: Option<string>,
    active: bool)

  /** The payload of a form: only the schedule's own day is sent (the other is null), the time
      is normalised, and an empty looker URL is null. */
  function PayloadOf(f: FormState): (p: Payload)
    ensures f.scheduleType == "monthly" ==> p.dayOfWeek.None? && p.dayOfMonth == NumberOf(f.dayOfMonth)
    ensures f.scheduleType == "weekly" ==> p.dayOfMonth.None? && p.dayOfWeek == NumberOf(f.dayOfWeek)
    ensures p.timeOfDay == NormalizeTime(f.timeOfDay)
    ensures p.lookerUrl.None? <==> f.lookerUrl == ""
  {
    Payload(f.scheduleType,
            if f.scheduleType == "monthly" then NumberOf(f.dayOfMonth) else None,
            if f.scheduleType == "weekly" then NumberOf(f.dayOfWeek) else None,
            NormalizeTime(f.timeOfDay), f.timezone,
            if f.lookerUrl == "" then None else Some(f.lookerUrl),
            f.active)
  }

  /** A stored 'HH:MM:SS' time comes back from the form unchanged exactly when its seconds are
      '00': the form keeps hours and minutes only. */
  lemma TimeRoundTrip(s: StoredSetting)
    requires s.timeOfDay.Some? && |s.timeOfDay.value| == 8
    ensures NormalizeTime(BuildFormState(Some(s)).timeOfDay) == s.timeOfDay.value <==> s.timeOfDay.value[5..] == ":00"
  {
    var t := s.timeOfDay.value;
    assert First5(t) == t[..5];
    assert t == t[..5] + t[5..];
    if NormalizeTime(t[..5]) == t {
      assert t[5..] == (t[..5] + ":00")[5..];
    }
  }

  /** A positive stored day of month reaches the payload unchanged. */
  lemma DayRoundTrip(s: StoredSetting)
    requires s.dayOfMonth.Some? && s.dayOfMonth.value > 0
    requires BuildFormState(Some(s)).scheduleType == "monthly"
    ensures PayloadOf(BuildFormState(Some(s))).dayOfMonth == s.dayOfMonth
  {
    var n: nat := s.dayOfMonth.value;
    var d := NatToDecimal(n);
    assert IntToDecimal(n) == d;
    assert Trim(d) == d by {
      assert !IsTrimSpace(d[0]) && !IsTrimSpace(d[|d| - 1]);
      TrimOfUnpadded(d);
    }
    DigitsOfNat(n);
  }

  lemma TrimOfUnpadded(s: string)
    requires |s| > 0 && !IsTrimSpace(s[0]) && !IsTrimSpace(s[|s| - 1])
    ensures Trim(s) == s
  {
  }

  /** A single digit is read as its value. */
  lemma NumberOfDigit(c: char)
    requires IsDigit(c)
    ensures NumberOf([c]) == Some(DigitValue(c))
  {
    TrimOfUnpadded([c]);
    assert AllDigits([c]);
    assert [c][..0] == [];
    assert DigitsValue([c]) == DigitValue(c);
  }

  /** A new setting opens with the empty form, which submits a monthly schedule on day 1 at
      the backend's default time, in UTC, inactive and without a looker URL. */
  lemma EmptyFormPayload()
    ensures PayloadOf(BuildFormState(None)) == Payload("monthly", Some(1), None, DefaultTime, "UTC", None, false)
  {
    NumberOfDigit('1');
    assert "1" == ['1'];
    assert "08:00" + ":00" == DefaultTime;
  }
}
