/**
 * The event form validator of src/components/pages/timeline/editTimelineEventModal/validator.ts:
 * both date-times are required, the start must come strictly before the end, and at least one
 * character must be selected.
 */
module EventValidator {
  import opened Wrappers
  import opened JsText
  import opened CustomValidation

  /** The fields the validator reads. */
  datatype EventForm = EventForm(startDateTimeStr: string, endDateTimeStr: string, characterIds: seq<string>)

  /**
   * The order check both validators share: `new Date(start) >= new Date(end)`, with `parse` the
   * instant a date string denotes (NaN for an invalid date, which makes the comparison false).
   */
  predicate OutOfOrder(parse: string -> Num, startStr: string, endStr: string) {
    Le(parse(endStr), parse(startStr))
  }

  /** `startDateTimeStr`: required; with an end set, it must be strictly earlier. */
  function ValidateStart(parse: string -> Num, value: string, values: EventForm): (r: Option<ValidationError>)
    ensures value == "" ==> r == Some(Required)
    ensures value != "" ==> (r.Some? <==> values.endDateTimeStr != "" && OutOfOrder(parse, value, values.endDateTimeStr))
    ensures value != "" && r.Some? ==> r.value == StartNotBeforeEnd
  {
    if value == "" then Some(Required)
    else if values.endDateTimeStr != "" && OutOfOrder(parse, value, values.endDateTimeStr) then Some(StartNotBeforeEnd)
    else None
  }

  /** `endDateTimeStr`: required; with a start set, it must be strictly later. */
  function ValidateEnd(parse: string -> Num, value: string, values: EventForm): (r: Option<ValidationError>)
    ensures value == "" ==> r == Some(Required)
    ensures value != "" ==> (r.Some? <==> values.startDateTimeStr != "" && OutOfOrder(parse, values.startDateTimeStr, value))
    ensures value != "" && r.Some? ==> r.value == EndNotAfterStart
  {
    if value == "" then Some(Required)
    else if values.startDateTimeStr != "" && OutOfOrder(parse, values.startDateTimeStr, value) then Some(EndNotAfterStart)
    else None
  }

  /** `characterIds`: at least one character must be chosen. */
  function ValidateCharacterIds(ids: seq<string>): (r: Option<ValidationError>)
    ensures r.Some? <==> ids == []
    ensures r.Some? ==> r.value == NoCharacterSelected
  {
    if |ids| < 1 then Some(NoCharacterSelected) else None
  }

  /**
   * On a filled-in form the two checks accept the same pairs: between valid dates, exactly those
   * with the start strictly earlier (equal instants fail both); an invalid date passes both.
   */
  lemma BoundsAgree(parse: string -> Num, form: EventForm)
    requires form.startDateTimeStr != "" && form.endDateTimeStr != ""
    ensures ValidateStart(parse, form.startDateTimeStr, form).None? <==> ValidateEnd(parse, form.endDateTimeStr, form).None?
    ensures parse(form.startDateTimeStr).Int? && parse(form.endDateTimeStr).Int? ==>
      (ValidateStart(parse, form.startDateTimeStr, form).None? <==>
       parse(form.startDateTimeStr).value < parse(form.endDateTimeStr).value)
    ensures parse(form.startDateTimeStr).NaN? || parse(form.endDateTimeStr).NaN? ==>
      ValidateStart(parse, form.startDateTimeStr, form).None? && ValidateEnd(parse, form.endDateTimeStr, form).None?
  {
  }
}
