/**
 * The map selectors of src/features/map/selectors.ts: `selectMapData` resolves each stored
 * marker's place id against the configured places, and `selectAlibi` lists, per time slot, the
 * events whose time span overlaps the slot's half-open window.
 */
module MapSelectors {
  import opened Wrappers
  import opened JsText
  import opened Seqs
  import opened Models

  /** `places.find((p) => p.id === m.placeId) || null`: the place object, or `null`. */
  function PlaceOrNull(places: seq<Place>, id: int): PlaceRef {
    var found := FindPlace(places, id);
    if found.Some? then Is(found.value) else Null
  }

  /** A marker as `selectMapData` rebuilds it: same id and position, the place resolved or null. */
  function ResolveMarker(places: seq<Place>, m: MapMarker): MapMarker {
    MapMarker(m.placeId, Some(PlaceOrNull(places, m.placeId)), m.pos)
  }

  /**
   * `selectMapData`: the image and selected time copied, and every marker, in order, with its id
   * and position kept and its place replaced by the first configured place carrying its id, or by
   * `null` when no place does (the place was deleted).
   */
  function SelectMapData(store: MapData, places: seq<Place>): (r: MapData)
    ensures r.mapImage == store.mapImage && r.selectedTime == store.selectedTime
    ensures |r.mapMarkers| == |store.mapMarkers|
    ensures forall i :: 0 <= i < |r.mapMarkers| ==>
      r.mapMarkers[i].placeId == store.mapMarkers[i].placeId && r.mapMarkers[i].pos == store.mapMarkers[i].pos
    ensures forall i :: 0 <= i < |r.mapMarkers| ==>
      (r.mapMarkers[i].place == Some(Null) <==> forall p :: p in places ==> p.id != store.mapMarkers[i].placeId)
    ensures forall i :: 0 <= i < |r.mapMarkers| && r.mapMarkers[i].place != Some(Null) ==>
      r.mapMarkers[i].place.Some? && r.mapMarkers[i].place.value.Is? &&
      r.mapMarkers[i].place.value.place in places && r.mapMarkers[i].place.value.place.id == store.mapMarkers[i].placeId
    ensures forall i, k :: 0 <= i < |r.mapMarkers| && FirstWithId(places, store.mapMarkers[i].placeId, k) ==>
      r.mapMarkers[i].place == Some(Is(places[k]))
  {
    var markers := seq(|store.mapMarkers|, i requires 0 <= i < |store.mapMarkers| => ResolveMarker(places, store.mapMarkers[i]));
    forall i | 0 <= i < |markers|
      ensures markers[i].place == Some(Null) <==> forall p :: p in places ==> p.id != store.mapMarkers[i].placeId
      ensures markers[i].place != Some(Null) ==> markers[i].place.value.place in places
    {
      var found := FindPlace(places, store.mapMarkers[i].placeId);
      if found.Some? {
        var k :| 0 <= k < |places| && places[k] == found.value && (forall j :: 0 <= j < k ==> places[j].id != store.mapMarkers[i].placeId);
        assert places[k] in places;
      } else {
        assert forall p :: p in places ==> p.id != store.mapMarkers[i].placeId by {
          forall p | p in places ensures p.id != store.mapMarkers[i].placeId {
            var j :| 0 <= j < |places| && places[j] == p;
          }
        }
      }
    }
    forall i, k | 0 <= i < |markers| && FirstWithId(places, store.mapMarkers[i].placeId, k)
      ensures markers[i].place == Some(Is(places[k]))
    {
      FindPlaceFirst(places, store.mapMarkers[i].placeId, k);
    }
    MapData(store.mapImage, markers, store.selectedTime)
  }

  /** Resolution reads only the id and position, so resolving resolved data changes nothing. */
  lemma SelectMapDataIdempotent(store: MapData, places: seq<Place>)
    ensures SelectMapData(SelectMapData(store, places), places) == SelectMapData(store, places)
  {
    var once := SelectMapData(store, places);
    var twice := SelectMapData(once, places);
    assert twice.mapMarkers == once.mapMarkers;
  }

  /** With distinct place ids, a marker whose id belongs to the `k`-th place resolves to exactly that place. */
  lemma SelectMapDataFindsPlace(store: MapData, places: seq<Place>, i: nat, k: nat)
    requires UniqueIds(places) && i < |store.mapMarkers| && k < |places|
    requires store.mapMarkers[i].placeId == places[k].id
    ensures SelectMapData(store, places).mapMarkers[i].place == Some(Is(places[k]))
  {
    FindPlaceUnique(places, k);
  }

  /** `toMinute(config.interval) * 60 * 1000`: the slot length in milliseconds. */
  function IntervalMs(intervalMin: Num): Num {
    Mul(Mul(intervalMin, Int(60)), Int(1000))
  }

  /** `start < slotEnd && end > slotStart`: the event's span overlaps the slot's window. */
  predicate Overlaps<E>(startOf: E -> Num, endOf: E -> Num, ev: E, slotStart: Num, slotEnd: Num) {
    Lt(startOf(ev), slotEnd) && Lt(slotStart, endOf(ev))
  }

  /** The events listed for the slot starting at `slotStart`, in their original order. */
  function Matched<E(!new)>(events: seq<E>, slotStart: Num, intervalMin: Num, startOf: E -> Num, endOf: E -> Num): seq<E> {
    Filter(events, ev => Overlaps(startOf, endOf, ev, slotStart, Add(slotStart, IntervalMs(intervalMin))))
  }

  /** The `reduce`: each slot in turn sets `acc[slot.value]` to the events it matches. */
  function AlibiFold<E(!new)>(acc: map<string, seq<E>>, slots: seq<SelectOption>, events: seq<E>, intervalMin: Num,
                              parse: string -> Num, startOf: E -> Num, endOf: E -> Num): map<string, seq<E>>
    decreases |slots|
  {
    if slots == [] then acc
    else
      var slotStart := parse(slots[0].value);
      AlibiFold(acc[slots[0].value := Matched(events, slotStart, intervalMin, startOf, endOf)], slots[1..], events,
                intervalMin, parse, startOf, endOf)
  }

  /**
   * `selectAlibi`: the slot values become the keys, and each slot lists the events overlapping
   * `[slotStart, slotStart + interval)`. `parse` is `new Date(x).getTime()` (NaN for a bad date);
   * `startOf` and `endOf` give an event's start and end the same way.
   */
  function SelectAlibi<E(!new)>(slots: seq<SelectOption>, events: seq<E>, intervalMin: Num,
                                parse: string -> Num, startOf: E -> Num, endOf: E -> Num): (r: map<string, seq<E>>)
    ensures r.Keys == (set s | s in slots :: s.value)
    ensures forall k :: k in r ==> r[k] == Matched(events, parse(k), intervalMin, startOf, endOf)
  {
    AlibiFoldEntries(map[], slots, events, intervalMin, parse, startOf, endOf);
    AlibiFold(map[], slots, events, intervalMin, parse, startOf, endOf)
  }

  /** The fold's keys are the earlier keys plus the slot values, and each slot's entry is what its value matches. */
  lemma {:induction false} AlibiFoldEntries<E(!new)>(acc: map<string, seq<E>>, slots: seq<SelectOption>, events: seq<E>,
                                                     intervalMin: Num, parse: string -> Num, startOf: E -> Num, endOf: E -> Num)
    requires forall k :: k in acc ==> acc[k] == Matched(events, parse(k), intervalMin, startOf, endOf)
    ensures var r := AlibiFold(acc, slots, events, intervalMin, parse, startOf, endOf);
      r.Keys == acc.Keys + (set s | s in slots :: s.value) &&
      forall k :: k in r ==> r[k] == Matched(events, parse(k), intervalMin, startOf, endOf)
    decreases |slots|
  {
    if slots != [] {
      var acc' := acc[slots[0].value := Matched(events, parse(slots[0].value), intervalMin, startOf, endOf)];
      AlibiFoldEntries(acc', slots[1..], events, intervalMin, parse, startOf, endOf);
      SlotValuesCons(slots);
    }
  }

  /** The values of a non-empty slot list are its first value and the values of the rest. */
  lemma SlotValuesCons(slots: seq<SelectOption>)
    requires slots != []
    ensures (set s | s in slots :: s.value) == {slots[0].value} + (set s | s in slots[1..] :: s.value)
  {
    assert forall s :: s in slots ==> s == slots[0] || s in slots[1..];
    assert forall s :: s in slots[1..] ==> s in slots;
  }

  /**
   * One entry per slot value; the events listed under a slot are exactly the events overlapping
   * its half-open window, kept in their original order, none left out and none added.
   */
  lemma AlibiMembership<E(!new)>(slots: seq<SelectOption>, events: seq<E>, intervalMin: Num,
                                 parse: string -> Num, startOf: E -> Num, endOf: E -> Num, key: string, ev: E)
    ensures var r := SelectAlibi(slots, events, intervalMin, parse, startOf, endOf);
      r.Keys == (set s | s in slots :: s.value) &&
      (key in r ==> IsSubsequence(r[key], events)) &&
      (key in r ==> (ev in r[key] <==>
        ev in events && Lt(startOf(ev), Add(parse(key), IntervalMs(intervalMin))) && Lt(parse(key), endOf(ev))))
  {
    AlibiFoldEntries(map[], slots, events, intervalMin, parse, startOf, endOf);
  }

  /**
   * Touching is not overlapping: an event ending exactly when a slot starts, or starting exactly
   * when it ends, is not listed; nor is an event whose end is missing or unparseable (NaN).
   */
  lemma AlibiExcludes<E(!new)>(slots: seq<SelectOption>, events: seq<E>, intervalMin: Num,
                               parse: string -> Num, startOf: E -> Num, endOf: E -> Num, key: string, ev: E)
    requires key in SelectAlibi(slots, events, intervalMin, parse, startOf, endOf)
    requires endOf(ev) == parse(key) || startOf(ev) == Add(parse(key), IntervalMs(intervalMin)) || endOf(ev).NaN?
    ensures ev !in SelectAlibi(slots, events, intervalMin, parse, startOf, endOf)[key]
  {
    AlibiMembership(slots, events, intervalMin, parse, startOf, endOf, key, ev);
  }

  /**
   * The boundary example in milliseconds: with hourly slots, the slot at 11:00 does not list an
   * event from 10:00 to 11:00 but does list one from 10:30 to 11:30.
   */
  lemma AlibiBoundaryExample<E(!new)>(slots: seq<SelectOption>, events: seq<E>, parse: string -> Num,
                                      startOf: E -> Num, endOf: E -> Num, key: string, touching: E, overlapping: E)
    requires key in SelectAlibi(slots, events, Int(60), parse, startOf, endOf)
    requires parse(key) == Int(39600000)
    requires startOf(touching) == Int(36000000) && endOf(touching) == Int(39600000)
    requires startOf(overlapping) == Int(37800000) && endOf(overlapping) == Int(41400000) && overlapping in events
    ensures touching !in SelectAlibi(slots, events, Int(60), parse, startOf, endOf)[key]
    ensures overlapping in SelectAlibi(slots, events, Int(60), parse, startOf, endOf)[key]
  {
    AlibiMembership(slots, events, Int(60), parse, startOf, endOf, key, touching);
    AlibiMembership(slots, events, Int(60), parse, startOf, endOf, key, overlapping);
  }
}
