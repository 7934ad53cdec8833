/**
 * The timeline slice of src/features/timelines/timelineSlice.ts: its own id-less records, the
 * store state, and the reducers `save`, `updateScenarioName` and `updateConfig`.
 */
module TimelineSlice {
  import opened Wrappers
  import opened JsText
  import opened HmTime

  datatype Scenario = Scenario(name: string, memo: string)

  /** A character of this slice: identified by its name, with no numeric id. */
  datatype Character = Character(name: string, playerName: string, color: string, memo: string)

  datatype Place = Place(name: string, color: string, memo: string)

  /**
   * An event of the timeline table. `endTime`, `characters` and `color` may be missing from the
   * stored objects (the slice's own sample events omit them), so they are options here.
   */
  datatype TimelineEvent = TimelineEvent(
    startTime: string,
    endTime: Option<string>,
    place: Place,
    characters: Option<seq<Character>>,
    color: Option<string>,
    detail: string)

  /** The payload of `updateConfig`. */
  datatype TimelineConfig = TimelineConfig(
    interval: string,
    startTime: string,
    endTime: string,
    characters: seq<Character>,
    places: seq<Place>)

  /** The whole slice state. */
  datatype Timeline = Timeline(
    scenario: Scenario,
    times: seq<string>,
    characters: seq<Character>,
    places: seq<Place>,
    events: seq<TimelineEvent>)

  /** `updateConfig`'s early-return guard `step <= 0 || end < start` (false for NaN operands). */
  predicate RejectsRange(start: Num, end: Num, step: Num) {
    Le(step, Int(0)) || Lt(end, start)
  }

  /** The time list an accepted configuration produces, from its three "HH:mm" fields. */
  function ConfigTimes(config: TimelineConfig): seq<string>
    requires !RejectsRange(ToMinutes(config.startTime), ToMinutes(config.endTime), ToMinutes(config.interval))
  {
    Format(Grid(ToMinutes(config.startTime), ToMinutes(config.endTime), ToMinutes(config.interval)))
  }

  /** The timeline slice's state, changed in place by its reducers. */
  class TimelineStore {
    var scenario: Scenario
    var times: seq<string>
    var characters: seq<Character>
    var places: seq<Place>
    var events: seq<TimelineEvent>

    /** The state as one value. */
    function Snapshot(): Timeline
      reads this
    {
      Timeline(scenario, times, characters, places, events)
    }

    /** A store holding the given state. */
    constructor (init: Timeline)
      ensures Snapshot() == init
    {
      scenario := init.scenario;
      times := init.times;
      characters := init.characters;
      places := init.places;
      events := init.events;
    }

    /** `save`: the payload replaces the entire state. */
    method Save(payload: Timeline)
      modifies this
      ensures Snapshot() == payload
    {
      scenario := payload.scenario;
      times := payload.times;
      characters := payload.characters;
      places := payload.places;
      events := payload.events;
    }

    /** `updateScenarioName`: only the scenario's name changes. */
    method UpdateScenarioName(name: string)
      modifies this
      ensures Snapshot() == old(Snapshot()).(scenario := old(scenario).(name := name))
    {
      scenario := scenario.(name := name);
    }

    /**
     * `updateConfig`: a rejected range leaves the whole state as it was; otherwise the time list
     * is rebuilt from the configured range and the characters and places are replaced, while the
     * scenario and the events stay.
     */
    method UpdateConfig(config: TimelineConfig)
      modifies this
      ensures RejectsRange(ToMinutes(config.startTime), ToMinutes(config.endTime), ToMinutes(config.interval)) ==>
        Snapshot() == old(Snapshot())
      ensures !RejectsRange(ToMinutes(config.startTime), ToMinutes(config.endTime), ToMinutes(config.interval)) ==>
        Snapshot() == old(Snapshot()).(times := ConfigTimes(config), characters := config.characters, places := config.places)
    {
      var start := ToMinutes(config.startTime);
      var end := ToMinutes(config.endTime);
      var step := ToMinutes(config.interval);
      if RejectsRange(start, end, step) {
        return;
      }
      var newTimes := SteppedTimes(start, end, step);
      times := newTimes;
      characters := config.characters;
      places := config.places;
    }
  }

  /**
   * An accepted range of whole minutes: `(end - start) div step + 1` times, the first being the
   * start, time `i` reading back as `start + i * step` and not past the end, all distinct; the
   * end is listed exactly when the step divides `end - start`, and `start == end` lists it alone.
   */
  lemma AcceptedTimes(config: TimelineConfig, start: nat, end: nat, step: nat)
    requires ToMinutes(config.startTime) == Int(start)
    requires ToMinutes(config.endTime) == Int(end)
    requires ToMinutes(config.interval) == Int(step)
    requires step > 0 && start <= end
    ensures var times := ConfigTimes(config);
      |times| == (end - start) / step + 1 &&
      times[0] == ToHm(start) &&
      (forall i :: 0 <= i < |times| ==> ToMinutes(times[i]) == Int(start + i * step) && start + i * step <= end) &&
      (forall i, j :: 0 <= i < j < |times| ==> times[i] != times[j]) &&
      (ToHm(end) in times <==> (end - start) % step == 0) &&
      (start == end ==> times == [ToHm(start)])
  {
    var g := Slots(start, end, step);
    assert ConfigTimes(config) == Format(g);
    FormattedSlots(start, end, step);
    FormattedSlotsHaveEnd(start, end, step);
    SlotsFirst(start, end, step);
    FormatAt(g);
    if start == end {
      assert Format([start]) == Format([]) + [ToHm(start)];
    }
  }

  /** A step of zero minutes or less, or an end before the start, is rejected. */
  lemma RejectedRanges(config: TimelineConfig)
    ensures ToMinutes(config.interval) == Int(0) ==>
      RejectsRange(ToMinutes(config.startTime), ToMinutes(config.endTime), ToMinutes(config.interval))
    ensures Lt(ToMinutes(config.endTime), ToMinutes(config.startTime)) ==>
      RejectsRange(ToMinutes(config.startTime), ToMinutes(config.endTime), ToMinutes(config.interval))
  {
  }

  /** A start or end that is not a number passes the guard (NaN comparisons are false) and yields no times. */
  lemma NaNBoundTimes(config: TimelineConfig)
    requires ToMinutes(config.startTime).NaN? || ToMinutes(config.endTime).NaN?
    requires !Le(ToMinutes(config.interval), Int(0))
    ensures !RejectsRange(ToMinutes(config.startTime), ToMinutes(config.endTime), ToMinutes(config.interval))
    ensures ConfigTimes(config) == []
  {
  }

  /**
   * An interval that is not a number is not rejected (`NaN <= 0` is false): the loop pushes the
   * start once, and `t += NaN` ends it, so a valid range yields the start time alone.
   */
  lemma NaNIntervalTimes(config: TimelineConfig)
    requires ToMinutes(config.interval).NaN?
    requires Le(ToMinutes(config.startTime), ToMinutes(config.endTime))
    ensures !RejectsRange(ToMinutes(config.startTime), ToMinutes(config.endTime), ToMinutes(config.interval))
    ensures ConfigTimes(config) == [ToHm(ToMinutes(config.startTime).value)]
  {
    assert Format([ToMinutes(config.startTime).value]) == Format([]) + [ToHm(ToMinutes(config.startTime).value)];
  }

  /** "18:00", "23:00" and "01:00" are minutes 1080, 1380 and 60. */
  lemma EveningBounds()
    ensures ToMinutes("18:00") == Int(1080) && ToMinutes("23:00") == Int(1380) && ToMinutes("01:00") == Int(60)
  {
    WholeHour('1', '8');
    WholeHour('2', '3');
    WholeHour('0', '1');
  }

  /** "18:00" to "23:00" every "01:00": six times, 18:00 first and 23:00 last. */
  lemma EveningExample(config: TimelineConfig)
    requires config.startTime == "18:00" && config.endTime == "23:00" && config.interval == "01:00"
    ensures !RejectsRange(ToMinutes(config.startTime), ToMinutes(config.endTime), ToMinutes(config.interval))
    ensures |ConfigTimes(config)| == 6
    ensures ToMinutes(ConfigTimes(config)[0]) == Int(1080) && ToMinutes(ConfigTimes(config)[5]) == Int(1380)
  {
    assert ToMinutes(config.startTime) == Int(1080) && ToMinutes(config.endTime) == Int(1380) &&
           ToMinutes(config.interval) == Int(60) by {
      EveningBounds();
    }
    var start, end, step := 1080, 1380, 60;
    var times := ConfigTimes(config);
    assert |times| == 6 && ToMinutes(times[0]) == Int(1080) && ToMinutes(times[5]) == Int(1380) by {
      AcceptedTimes(config, start, end, step);
      assert (end - start) / step + 1 == 6;
      assert ToMinutes(times[5]) == Int(start + 5 * step);
    }
  }
}
