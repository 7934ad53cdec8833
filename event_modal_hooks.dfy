/**
 * The event-modal hook of src/components/pages/timeline/editTimelineEventModal/hooks.ts: the
 * default draft of `initialValues` and the time presets of `getTimePresets`, which span one day
 * or, for a scenario over several days, the part of the given day the scenario covers.
 */
module EventModalHooks {
  import opened Wrappers
  import opened JsText
  import opened HmTime
  import opened Models

  /** The event form's data: every field the hook reads or fills. */
  datatype EventFormData = EventFormData(
    id: string,
    startTime: string,
    endTime: string,
    days: string,
    detail: string,
    color: string,
    witnessId: string,
    witnessCharacter: Option<Character>,  // `witness`; None: the empty placeholder `{}`
    characterIds: seq<string>,
    characters: seq<Character>,
    placeId: string,
    place: Option<Place>)         // None: the empty placeholder object `{}`

  /** `COLOR_EVENT_DEFAULT` of src/app/appConstants.ts. */
  const ColorEventDefault := "#868e96"

  /**
   * `initialValues`: an event with a non-empty id or a non-empty start time is edited as it is;
   * no event, or one with neither, starts a blank one-day draft in the default colour.
   */
  function InitialValues(event: Option<EventFormData>): (r: EventFormData)
    ensures event.Some? && (event.value.id != "" || event.value.startTime != "") ==> r == event.value
    ensures event.None? || (event.value.id == "" && event.value.startTime == "") ==>
      r.id == "" && r.startTime == "" && r.endTime == "" && r.days == "1" && r.detail == "" &&
      r.color == ColorEventDefault && r.witnessId == "" && r.witnessCharacter.None? &&
      r.characterIds == [] && r.characters == [] && r.placeId == "" && r.place.None?
  {
    if event.Some? && event.value.id != "" then event.value
    else if event.Some? && event.value.startTime != "" then event.value
    else EventFormData("", "", "", "1", "", ColorEventDefault, "", None, [], [], "", None)
  }

  /** Feeding the hook its own initial values gives them back: the blank draft is a fixed point. */
  lemma InitialValuesIdempotent(event: Option<EventFormData>)
    ensures InitialValues(Some(InitialValues(event))) == InitialValues(event)
  {
  }

  /** What `getTimePresets` reads of the timeline config; `days` is NaN when the config has none. */
  datatype PresetConfig = PresetConfig(startTime: string, endTime: string, interval: string, days: Num)

  /** The `[from, to]` bounds of the loop `getTimePresets` runs for the given day. */
  function PresetRange(config: PresetConfig, days: int): (r: (Num, Num))
    ensures r.0.Int? ==> r.0.value >= 0
  {
    var startMin, endMin := ToMinutes(config.startTime), ToMinutes(config.endTime);
    var fullStart, fullEnd := ToMinutes("00:00"), ToMinutes("24:00");
    if Le(config.days, Int(1)) then (startMin, endMin)        // single-day mode
    else if days == 1 then (startMin, fullEnd)                // first day: start to 24:00
    else if config.days == Int(days) then (fullStart, endMin) // last day: 00:00 to the end
    else (fullStart, fullEnd)                                 // a middle day: the whole day
  }

  /** The loop for the day ends: a positive step, unless the loop body never runs. */
  predicate PresetStepOk(config: PresetConfig, days: int) {
    var step := ToMinutes(config.interval);
    step.Int? && Le(PresetRange(config, days).0, PresetRange(config, days).1) ==> step.value > 0
  }

  /** `getTimePresets(days)`: the formatted stepped times of the day's range. */
  method GetTimePresets(config: PresetConfig, days: int) returns (times: seq<string>)
    requires PresetStepOk(config, days)
    ensures times == Format(Grid(PresetRange(config, days).0, PresetRange(config, days).1, ToMinutes(config.interval)))
  {
    var startMin := ToMinutes(config.startTime);
    var endMin := ToMinutes(config.endTime);
    var stepMin := ToMinutes(config.interval);
    var fullStart := ToMinutes("00:00");
    var fullEnd := ToMinutes("24:00");
    if Le(config.days, Int(1)) {
      times := SteppedTimes(startMin, endMin, stepMin);
      return;
    }
    if days == 1 {
      times := SteppedTimes(startMin, fullEnd, stepMin);
    } else if config.days == Int(days) {
      times := SteppedTimes(fullStart, endMin, stepMin);
    } else {
      times := SteppedTimes(fullStart, fullEnd, stepMin);
    }
  }

  /**
   * `getTimePresets` as written has no guard on the step: an interval of "00:00" over a non-empty
   * range makes the step 0, so `t += stepMin` never moves `t` and `t <= end` stays true forever.
   */
  lemma ZeroIntervalStalls(config: PresetConfig, days: int)
    requires config.interval == "00:00"
    requires Le(PresetRange(config, days).0, PresetRange(config, days).1)
    ensures ToMinutes(config.interval) == Int(0) && !PresetStepOk(config, days)
    ensures forall t: Num :: Add(t, ToMinutes(config.interval)) == t
  {
    DayBounds();
  }

  /**
   * `getTimePresets` with the step guard `updateConfig` applies: a step of at most 0 gives no
   * presets; any other step gives the stepped times of the day's range, and the loop ends.
   */
  method GetTimePresetsGuarded(config: PresetConfig, days: int) returns (times: seq<string>)
    ensures ToMinutes(config.interval).Int? && ToMinutes(config.interval).value <= 0 ==> times == []
    ensures !(ToMinutes(config.interval).Int? && ToMinutes(config.interval).value <= 0) ==>
      PresetStepOk(config, days) &&
      times == Format(Grid(PresetRange(config, days).0, PresetRange(config, days).1, ToMinutes(config.interval)))
  {
    var stepMin := ToMinutes(config.interval);
    if stepMin.Int? && stepMin.value <= 0 {
      return [];
    }
    times := GetTimePresets(config, days);
  }

  /** "00:00" is minute 0 and "24:00" is minute 1440. */
  lemma DayBounds()
    ensures ToMinutes("00:00") == Int(0) && ToMinutes("24:00") == Int(1440)
  {
    WholeHour('0', '0');
    WholeHour('2', '4');
  }

  /** "01:00" is 60 minutes. */
  lemma OneHour()
    ensures ToMinutes("01:00") == Int(60)
  {
    WholeHour('0', '1');
  }

  /**
   * The range of each day. A config of at most one day gives start to end whatever day is asked
   * for; otherwise day 1 runs from the start to 1440, the last day from 0 to the end, and every
   * other day from 0 to 1440.
   */
  lemma PresetRanges(config: PresetConfig, days: int, other: int)
    ensures Le(config.days, Int(1)) ==>
      PresetRange(config, days) == PresetRange(config, other) == (ToMinutes(config.startTime), ToMinutes(config.endTime))
    ensures !Le(config.days, Int(1)) && days == 1 ==>
      PresetRange(config, days) == (ToMinutes(config.startTime), Int(1440))
    ensures !Le(config.days, Int(1)) && days != 1 && config.days == Int(days) ==>
      PresetRange(config, days) == (Int(0), ToMinutes(config.endTime))
    ensures !Le(config.days, Int(1)) && days != 1 && config.days != Int(days) ==>
      PresetRange(config, days) == (Int(0), Int(1440))
  {
    DayBounds();
  }

  /**
   * Whatever the branch, presets over whole-minute bounds `lo <= hi` with a positive step run
   * from `lo` upwards by exactly the step, never pass `hi`, and number `(hi - lo) div step + 1`.
   */
  lemma PresetsWithinBounds(config: PresetConfig, days: int, lo: nat, hi: nat, step: nat)
    requires PresetRange(config, days) == (Int(lo), Int(hi)) && ToMinutes(config.interval) == Int(step)
    requires step > 0 && lo <= hi
    ensures var times := Format(Grid(Int(lo), Int(hi), Int(step)));
      |times| == (hi - lo) / step + 1 &&
      (forall i :: 0 <= i < |times| ==> ToMinutes(times[i]) == Int(lo + i * step) && lo + i * step <= hi) &&
      (forall i, j :: 0 <= i < j < |times| ==> times[i] != times[j])
  {
    FormattedSlots(lo, hi, step);
  }

  /** An hourly middle day of a three-day scenario: 25 presets, from "00:00" to "24:00". */
  lemma MiddleDayExample(config: PresetConfig)
    requires config.days == Int(3) && config.interval == "01:00"
    ensures PresetStepOk(config, 2)
    ensures var times := Format(Grid(PresetRange(config, 2).0, PresetRange(config, 2).1, ToMinutes(config.interval)));
      |times| == 25 && ToMinutes(times[0]) == Int(0) && ToMinutes(times[24]) == Int(1440)
  {
    assert ToMinutes(config.interval) == Int(60) by {
      OneHour();
    }
    assert PresetRange(config, 2) == (Int(0), Int(1440)) by {
      PresetRanges(config, 2, 2);
    }
    var lo, hi, step := 0, 1440, 60;
    PresetsWithinBounds(config, 2, lo, hi, step);
  }
}
