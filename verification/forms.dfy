/**
 * The form-level validation the views rely on: `ScheduleForm.clean`, the
 * required flags of `ClassForm`, and `JoinClassForm.clean_class_code`.
 * Django's `CharField` strips surrounding whitespace before its validators
 * run; that step is part of the model because the length checks see its result.
 */
module Forms {
  import opened Wrappers
  import opened Text
  import opened Clock
  import opened Scheduling

  // ---------------------------------------------------------------------------
  // ScheduleForm
  // ---------------------------------------------------------------------------

  /** The cleaned data of a `ScheduleForm`; `None` is a field the user left empty. */
  datatype ScheduleData = ScheduleData(day: Option<Day>, start: Option<Time>, end: Option<Time>)

  datatype ScheduleFormError = MissingField | EndNotAfterStart

  /** `ScheduleForm.clean`: reject an end that is not after the start; otherwise return the data as it is. */
  function CleanSchedule(data: ScheduleData): (r: Result<ScheduleData, ScheduleFormError>)
    ensures r.Err? <==> data.start.Some? && data.end.Some? && data.end.value.Minutes() <= data.start.value.Minutes()
    ensures r.Err? ==> r.error == EndNotAfterStart
    ensures r.Ok? ==> r.value == data
  {
    if data.start.Some? && data.end.Some? then
      if data.end.value.Minutes() <= data.start.value.Minutes() then Err(EndNotAfterStart) else Ok(data)
    else Ok(data)
  }

  /** `form.is_valid()`: the three model fields are required, then `clean` runs. */
  function ValidateSchedule(data: ScheduleData): (r: Result<Schedule, ScheduleFormError>)
    ensures r.Ok? ==> ValidRange(r.value)
    ensures r.Ok? <==> data.day.Some? && data.start.Some? && data.end.Some? &&
                       data.start.value.Minutes() < data.end.value.Minutes()
    ensures r.Ok? ==> r.value == Schedule(data.day.value, data.start.value, data.end.value)
  {
    if data.day.None? || data.start.None? || data.end.None? then Err(MissingField)
    else match CleanSchedule(data)
      case Err(e) => Err(e)
      case Ok(d) => Ok(Schedule(d.day.value, d.start.value, d.end.value))
  }

  // ---------------------------------------------------------------------------
  // ClassForm
  // ---------------------------------------------------------------------------

  /** The raw text of the four `ClassForm` fields. */
  datatype ClassInput = ClassInput(subject: string, section: string, room: string, description: string)

  /**
   * Cleaned values. `section` and `room` are nullable `CharField`s, whose form fields clean a
   * blank entry to `None`; `description` is a `TextField`, whose form field keeps `''`.
   */
  datatype ClassFields = ClassFields(subject: string, section: Option<string>, room: Option<string>, description: string)

  datatype ClassFormError = SubjectRequired | TooLong(field: string)

  /** A blank optional nullable `CharField` cleans to `None`, a filled one to its stripped text. */
  function Optional(raw: string): (r: Option<string>)
    ensures r.None? <==> Trim(raw, PyStrip) == []
    ensures r.Some? ==> r.value == Trim(raw, PyStrip)
  {
    var v := Trim(raw, PyStrip);
    if v == [] then None else Some(v)
  }

  /** The `ClassForm` fields after `__init__` sets `subject` required and the other three optional. */
  function CleanClass(input: ClassInput): (r: Result<ClassFields, ClassFormError>)
    ensures r.Ok? <==> Trim(input.subject, PyStrip) != [] && |Trim(input.subject, PyStrip)| <= 200 &&
                       |Trim(input.section, PyStrip)| <= 50 && |Trim(input.room, PyStrip)| <= 100 && |Trim(input.description, PyStrip)| <= 500
    ensures r.Err? && r.error == SubjectRequired <==> Trim(input.subject, PyStrip) == []
    ensures r.Ok? ==> r.value.subject == Trim(input.subject, PyStrip) &&
                      r.value.section == Optional(input.section) && r.value.room == Optional(input.room) &&
                      r.value.description == Trim(input.description, PyStrip)
  {
    var subject := Trim(input.subject, PyStrip);
    if subject == [] then Err(SubjectRequired)
    else if |subject| > 200 then Err(TooLong("subject"))
    else if |Trim(input.section, PyStrip)| > 50 then Err(TooLong("section"))
    else if |Trim(input.room, PyStrip)| > 100 then Err(TooLong("room"))
    else if |Trim(input.description, PyStrip)| > 500 then Err(TooLong("description"))
    else Ok(ClassFields(subject, Optional(input.section), Optional(input.room), Trim(input.description, PyStrip)))
  }

  /** Blank section, room and description never make the form invalid; the description stays `''`. */
  lemma OptionalFieldsMayBeBlank(subject: string)
    requires Trim(subject, PyStrip) != [] && |Trim(subject, PyStrip)| <= 200
    ensures CleanClass(ClassInput(subject, "", "", "")) == Ok(ClassFields(Trim(subject, PyStrip), None, None, ""))
  {
  }

  // ---------------------------------------------------------------------------
  // JoinClassForm
  // ---------------------------------------------------------------------------

  datatype JoinCodeError = CodeRequired | WrongLength

  /**
   * The class code the join form hands to the view: the field strips and
   * checks 6 <= length <= 6, then `clean_class_code` upper-cases, strips
   * again and re-checks the length.
   */
  function CleanJoinCode(raw: string): (r: Result<string, JoinCodeError>)
    ensures r.Ok? <==> |Trim(raw, PyStrip)| == 6
    ensures r.Ok? ==> |r.value| == 6 && !HasLowercase(r.value) && r.value == Upper(Trim(raw, PyStrip))
  {
    var field := Trim(raw, PyStrip);
    if field == [] then Err(CodeRequired)
    else if |field| != 6 then Err(WrongLength)
    else
      var code := Trim(Upper(field), PyStrip);
      TrimShape(raw, PyStrip);
      UpperKeepsTrimmed(field);
      UpperShape(field, PyStrip);
      if |code| != 6 then Err(WrongLength) else Ok(code)
  }

  /** Upper-casing a stripped string leaves nothing to strip, so, with case limited to A-Z, the second length check cannot fail. */
  lemma UpperKeepsTrimmed(s: string)
    requires Trimmed(s, PyStrip)
    ensures Trim(Upper(s), PyStrip) == Upper(s)
  {
    UpperShape(s, PyStrip);
    var u := Upper(s);
    if u != [] {
      assert TrimLeft(u, PyStrip) == u;
      assert TrimRight(u, PyStrip) == u;
    }
  }
}
