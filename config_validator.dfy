/**
 * The timeline-config form validator of src/components/pages/timeline/configModal/validator.ts:
 * the interval and both bounds are required, the start must come strictly before the end, and
 * the cast and place lists have count limits and per-item checks.
 */
module ConfigValidator {
  import opened Wrappers
  import opened JsText
  import opened Seqs
  import opened Models
  import opened HmTime
  import opened CustomValidation

  /** `CHARACTER_MIN_COUNT`, `CHARACTER_MAX_COUNT` and `PLACE_MAX_COUNT` of src/app/appConstants.ts. */
  const CharacterMinCount := 1
  const CharacterMaxCount := 10
  const PlaceMaxCount := 10

  /** `interval`: required, and any non-empty value is accepted. */
  function ValidateInterval(value: string): (r: Option<ValidationError>)
    ensures r.Some? <==> value == ""
    ensures r.Some? ==> r.value == Required
  {
    if value == "" then Some(Required) else None
  }

  /**
   * The order check both bounds share: `sh * 60 + sm >= eh * 60 + em`, false whenever either
   * side is not a number.
   */
  predicate OutOfOrder(startTime: string, endTime: string) {
    Le(ToMinutes(endTime), ToMinutes(startTime))
  }

  /** `startTime`: required; with an end set, its minutes must be below the end's. */
  function ValidateStartTime(value: string, values: TimelineConfig): (r: Option<ValidationError>)
    ensures value == "" ==> r == Some(Required)
    ensures value != "" ==> (r.Some? <==> values.endTime != "" && OutOfOrder(value, values.endTime))
    ensures value != "" && r.Some? ==> r.value == StartNotBeforeEnd
  {
    if value == "" then Some(Required)
    else if values.endTime != "" && OutOfOrder(value, values.endTime) then Some(StartNotBeforeEnd)
    else None
  }

  /** `endTime`: required; with a start set, its minutes must be above the start's. */
  function ValidateEndTime(value: string, values: TimelineConfig): (r: Option<ValidationError>)
    ensures value == "" ==> r == Some(Required)
    ensures value != "" ==> (r.Some? <==> values.startTime != "" && OutOfOrder(values.startTime, value))
    ensures value != "" && r.Some? ==> r.value == EndNotAfterStart
  {
    if value == "" then Some(Required)
    else if values.startTime != "" && OutOfOrder(values.startTime, value) then Some(EndNotAfterStart)
    else None
  }

  /**
   * The two bound checks agree on a filled-in form: both fail or both pass. Between "HH:mm" bounds
   * they pass exactly when the start is strictly earlier, so equal bounds fail both; bounds that
   * are not "HH:mm" (NaN minutes) pass both.
   */
  lemma BoundsAgree(config: TimelineConfig)
    requires config.startTime != "" && config.endTime != ""
    ensures ValidateStartTime(config.startTime, config).None? <==> ValidateEndTime(config.endTime, config).None?
    ensures ToMinutes(config.startTime).Int? && ToMinutes(config.endTime).Int? ==>
      (ValidateStartTime(config.startTime, config).None? <==> ToMinutes(config.startTime).value < ToMinutes(config.endTime).value)
    ensures ToMinutes(config.startTime).NaN? || ToMinutes(config.endTime).NaN? ==>
      ValidateStartTime(config.startTime, config).None? && ValidateEndTime(config.endTime, config).None?
  {
  }

  /**
   * `.filter((message) => message)`: the messages that are present, in order and with their
   * repeats; wrapped back in `Some`, they are exactly what the filter keeps of the list.
   */
  function Present(messages: seq<Option<ValidationError>>): (r: seq<ValidationError>)
    ensures forall e :: e in r <==> Some(e) in messages
    ensures Wrapped(r) == Filter(messages, IsPresent)
  {
    if messages == [] then []
    else
      var head := if messages[0].Some? then [messages[0].value] else [];
      var rest := Present(messages[1..]);
      assert Filter(messages, IsPresent) == (if IsPresent(messages[0]) then [messages[0]] else []) + Filter(messages[1..], IsPresent);
      assert Wrapped(head) == if messages[0].Some? then [messages[0]] else [];
      WrappedAppend(head, rest);
      head + rest
  }

  /** Wrapping distributes over concatenation. */
  lemma WrappedAppend(a: seq<ValidationError>, b: seq<ValidationError>)
    ensures Wrapped(a + b) == Wrapped(a) + Wrapped(b)
  {
  }

  /** The test the filter applies: the message is not `null`. */
  function IsPresent(message: Option<ValidationError>): bool {
    message.Some?
  }

  /** The messages wrapped back as present options. */
  function Wrapped(errors: seq<ValidationError>): seq<Option<ValidationError>> {
    seq(|errors|, i requires 0 <= i < |errors| => Some(errors[i]))
  }

  /** `errors.length > 0 ? errors[0] : null`. */
  function FirstOf(errors: seq<ValidationError>): Option<ValidationError> {
    if errors == [] then None else Some(errors[0])
  }

  /**
   * `characters`: fewer than one is an error, more than ten is another, and only then the first
   * item error, if any. The count checks come first.
   */
  function ValidateCharacters(list: seq<Character>): (r: Option<ValidationError>)
    ensures |list| < CharacterMinCount ==> r == Some(TooFewCharacters)
    ensures |list| > CharacterMaxCount ==> r == Some(TooManyCharacters)
    ensures CharacterMinCount <= |list| <= CharacterMaxCount ==>
      (r.None? <==> forall i :: 0 <= i < |list| ==> list[i].name != "") &&
      (r.Some? ==> r.value == CharacterNameRequired)
  {
    if |list| < CharacterMinCount then Some(TooFewCharacters)
    else if |list| > CharacterMaxCount then Some(TooManyCharacters)
    else
      var messages := seq(|list|, i requires 0 <= i < |list| => ValidateCharacterItem(list[i]));
      assert forall i :: 0 <= i < |list| ==> messages[i] == ValidateCharacterItem(list[i]);
      assert Some(CharacterNameRequired) in messages <==> exists i :: 0 <= i < |list| && list[i].name == "";
      FirstOf(Present(messages))
  }

  /** `places`: more than ten is an error (none at all is fine), then the first item error, if any. */
  function ValidatePlaces(list: seq<Place>): (r: Option<ValidationError>)
    ensures |list| > PlaceMaxCount ==> r == Some(TooManyPlaces)
    ensures |list| <= PlaceMaxCount ==>
      (r.None? <==> forall i :: 0 <= i < |list| ==> list[i].name != "") &&
      (r.Some? ==> r.value == PlaceNameRequired)
  {
    if |list| > PlaceMaxCount then Some(TooManyPlaces)
    else
      var messages := seq(|list|, i requires 0 <= i < |list| => ValidatePlaceItem(list[i]));
      assert forall i :: 0 <= i < |list| ==> messages[i] == ValidatePlaceItem(list[i]);
      assert Some(PlaceNameRequired) in messages <==> exists i :: 0 <= i < |list| && list[i].name == "";
      FirstOf(Present(messages))
  }

  /** The whole form is valid: every field validator returns `null`. */
  predicate ConfigValid(config: TimelineConfig) {
    ValidateInterval(config.interval).None? &&
    ValidateStartTime(config.startTime, config).None? &&
    ValidateEndTime(config.endTime, config).None? &&
    ValidateCharacters(config.characters).None? &&
    ValidatePlaces(config.places).None?
  }

  /**
   * A valid config whose bounds are "HH:mm" is one the timeline slice accepts: its step is not
   * checked here, but its start is strictly before its end, so the range is never reversed.
   */
  lemma ValidConfigOrdered(config: TimelineConfig)
    requires ConfigValid(config) && ToMinutes(config.startTime).Int? && ToMinutes(config.endTime).Int?
    ensures Lt(ToMinutes(config.startTime), ToMinutes(config.endTime))
    ensures 1 <= |config.characters| <= 10 && |config.places| <= 10
  {
  }
}
