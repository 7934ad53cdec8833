/**
 * The map view hook of src/components/pages/map/hooks.tsx: marker resolution, the places not yet
 * on the map, the drag-and-drop handlers with their two "moving" refs, and the time slots.
 */
module MapView {
  import opened Wrappers
  import opened JsText
  import opened Seqs
  import opened Models
  import HmTime

  /** The `{ mapImage, mapMarkers }` object the hook's `mapData` memo returns (it has no selected time). */
  datatype MarkerView = MarkerView(mapImage: string, mapMarkers: seq<MapMarker>)

  /** `places.find((p) => p.id === m.placeId)`, stored under the `place` key: the place, or `undefined`. */
  function PlaceOrUndefined(places: seq<Place>, id: int): PlaceRef {
    var found := FindPlace(places, id);
    if found.Some? then Is(found.value) else Undefined
  }

  /**
   * The `mapData` memo: each stored marker, in order, with its id and position kept and its place
   * the first configured place with that id, or `undefined` for a place that no longer exists.
   */
  function ResolveMapData(store: MapData, places: seq<Place>): (r: MarkerView)
    ensures r.mapImage == store.mapImage && |r.mapMarkers| == |store.mapMarkers|
    ensures forall i :: 0 <= i < |r.mapMarkers| ==>
      r.mapMarkers[i].placeId == store.mapMarkers[i].placeId && r.mapMarkers[i].pos == store.mapMarkers[i].pos
    ensures forall i :: 0 <= i < |r.mapMarkers| ==>
      (r.mapMarkers[i].place == Some(Undefined) <==> forall k :: 0 <= k < |places| ==> places[k].id != store.mapMarkers[i].placeId)
    ensures forall i :: 0 <= i < |r.mapMarkers| && r.mapMarkers[i].place != Some(Undefined) ==>
      r.mapMarkers[i].place.Some? && r.mapMarkers[i].place.value.Is? &&
      r.mapMarkers[i].place.value.place in places && r.mapMarkers[i].place.value.place.id == store.mapMarkers[i].placeId
    ensures forall i, k :: 0 <= i < |r.mapMarkers| && FirstWithId(places, store.mapMarkers[i].placeId, k) ==>
      r.mapMarkers[i].place == Some(Is(places[k]))
  {
    var markers := seq(|store.mapMarkers|, i requires 0 <= i < |store.mapMarkers| =>
      MapMarker(store.mapMarkers[i].placeId, Some(PlaceOrUndefined(places, store.mapMarkers[i].placeId)), store.mapMarkers[i].pos));
    forall i | 0 <= i < |markers| && markers[i].place != Some(Undefined)
      ensures markers[i].place.value.place in places
    {
      var found := FindPlace(places, store.mapMarkers[i].placeId);
      var k :| 0 <= k < |places| && places[k] == found.value && (forall j :: 0 <= j < k ==> places[j].id != store.mapMarkers[i].placeId);
      assert places[k] in places;
    }
    forall i, k | 0 <= i < |markers| && FirstWithId(places, store.mapMarkers[i].placeId, k)
      ensures markers[i].place == Some(Is(places[k]))
    {
      FindPlaceFirst(places, store.mapMarkers[i].placeId, k);
    }
    MarkerView(store.mapImage, markers)
  }

  /** With distinct place ids, a marker whose id belongs to the `k`-th place resolves to exactly that place. */
  lemma ResolveMapDataFindsPlace(store: MapData, places: seq<Place>, i: nat, k: nat)
    requires UniqueIds(places) && i < |store.mapMarkers| && k < |places|
    requires store.mapMarkers[i].placeId == places[k].id
    ensures ResolveMapData(store, places).mapMarkers[i].place == Some(Is(places[k]))
  {
    FindPlaceUnique(places, k);
  }

  /** The test of the place filters: `!markers.some((m) => p.id === m.placeId)`. */
  function Unplaced(markers: seq<MapMarker>): Place -> bool {
    (p: Place) => !Referenced(markers, p.id)
  }

  /**
   * `unselectedPlaces`: the configured places that no marker references, in their order and with
   * their repeats; a configured place is listed iff no marker references it, so it is never
   * both placed and listed.
   */
  function UnselectedPlaces(places: seq<Place>, markers: seq<MapMarker>): (r: seq<Place>)
    ensures IsSubsequence(r, places)
    ensures forall p :: p in r <==> p in places && !Referenced(markers, p.id)
    ensures forall p :: multiset(r)[p] == if Referenced(markers, p.id) then 0 else multiset(places)[p]
  {
    FilterCounts(places, Unplaced(markers));
    Filter(places, Unplaced(markers))
  }

  /** Placing a place (appending a marker with its id) takes it off the list and leaves the others alone. */
  lemma PlacingRemovesPlace(places: seq<Place>, markers: seq<MapMarker>, p: Place, pos: Pos, q: Place)
    requires q in places && q.id != p.id
    ensures p !in UnselectedPlaces(places, markers + [MapMarker(p.id, None, pos)])
    ensures q in UnselectedPlaces(places, markers + [MapMarker(p.id, None, pos)]) <==> q in UnselectedPlaces(places, markers)
  {
    var added := MapMarker(p.id, None, pos);
    assert added in markers + [added];
    assert forall m :: m in markers + [added] <==> m in markers || m == added;
  }

  /** The map actions the view dispatches. */
  datatype MapAction =
    | UpdateMapImage(image: string)
    | AddMapMarker(marker: MapMarker)
    | UpdateMapMarker(marker: MapMarker)
    | DeleteMapMarker(placeId: int)

  /** `onFileDrop`: no file clears the image; otherwise the image becomes the file's object URL. */
  function OnFileDrop<F>(files: seq<F>, objectUrl: F -> string): (action: MapAction)
    ensures files == [] ==> action == UpdateMapImage("")
    ensures files != [] ==> action == UpdateMapImage(objectUrl(files[0]))
  {
    if files == [] then UpdateMapImage("") else UpdateMapImage(objectUrl(files[0]))
  }

  /** `handleMarkerDelete`: delete the markers of that place. */
  function HandleMarkerDelete(placeId: int): (action: MapAction)
    ensures action.DeleteMapMarker? && action.placeId == placeId
  {
    DeleteMapMarker(placeId)
  }

  /** The two refs of the drag-and-drop handlers: the place badge or marker being dragged. */
  class DragState {
    var movingPlace: Option<Place>
    var movingMarker: Option<MapMarker>

    /** Nothing is being dragged. */
    constructor ()
      ensures movingPlace.None? && movingMarker.None?
    {
      movingPlace := None;
      movingMarker := None;
    }

    /** `handlePlaceDrag(p)`: a copy of the place badge starts moving. */
    method HandlePlaceDrag(p: Place)
      modifies this
      ensures movingPlace == Some(p) && movingMarker == old(movingMarker)
    {
      movingPlace := Some(p);
    }

    /** `handleMarkerMoveStart(m)`: a copy of the marker starts moving. */
    method HandleMarkerMoveStart(m: MapMarker)
      modifies this
      ensures movingMarker == Some(m) && movingPlace == old(movingPlace)
    {
      movingMarker := Some(m);
    }

    /**
     * `handleDrop`: without a container nothing happens. Otherwise a moving marker is moved to
     * the drop position (payload with its id and the position, no `place` key), then a moving
     * place gets a new marker there; each ref is cleared once used.
     */
    method HandleDrop(containerReady: bool, pos: Pos) returns (actions: seq<MapAction>)
      modifies this
      ensures !containerReady ==> actions == [] && movingPlace == old(movingPlace) && movingMarker == old(movingMarker)
      ensures containerReady ==> movingPlace.None? && movingMarker.None?
      ensures containerReady ==> (actions ==
        (if old(movingMarker).Some? then [UpdateMapMarker(MapMarker(old(movingMarker).value.placeId, None, pos))] else []) +
        (if old(movingPlace).Some? then [AddMapMarker(MapMarker(old(movingPlace).value.id, None, pos))] else []))
    {
      actions := [];
      if !containerReady {
        return;
      }
      if movingMarker.Some? {
        actions := actions + [UpdateMapMarker(MapMarker(movingMarker.value.placeId, None, pos))];
        movingMarker := None;
      }
      if movingPlace.Some? {
        actions := actions + [AddMapMarker(MapMarker(movingPlace.value.id, None, pos))];
        movingPlace := None;
      }
    }
  }

  /** `Math.floor(a / b)` for a non-zero divisor (Dafny's `/` rounds towards minus infinity only for `b > 0`). */
  function FloorDiv(a: int, b: int): (q: int)
    requires b != 0
    ensures b > 0 ==> q * b <= a < q * b + b
  {
    if b > 0 then a / b else (-a) / (-b)
  }

  /** The largest length `Array.from` accepts: 2^32 - 1. */
  const MaxArrayLength := 4294967295

  /**
   * The length `Array.from({ length: count })` gets, or `None` when it throws a RangeError.
   * `intervalMin` and `totalMin` are the minute counts of the interval and the time amount (NaN
   * when unreadable). A NaN operand, and 0 / 0, give NaN, which like any negative count becomes
   * length 0; a positive total over a zero interval gives Infinity, which is too long.
   */
  function SlotCount(intervalMin: Num, totalMin: Num): (r: Option<nat>)
    ensures intervalMin.NaN? || totalMin.NaN? ==> r == Some(0)
    ensures intervalMin.Int? && totalMin.Int? && intervalMin.value > 0 && 0 <= totalMin.value / intervalMin.value <= MaxArrayLength ==>
      r == Some(totalMin.value / intervalMin.value)
  {
    if intervalMin.NaN? || totalMin.NaN? then Some(0)
    else if intervalMin.value == 0 then (if totalMin.value > 0 then None else Some(0))
    else
      var q := FloorDiv(totalMin.value, intervalMin.value);
      if q <= 0 then Some(0) else if q > MaxArrayLength then None else Some(q)
  }

  /**
   * `getTimeSlots`: `count` slot instants, slot `i` at `start + i * interval` minutes, in
   * milliseconds. `start` is the parsed start instant (NaN when unparseable, and `toISOString`
   * then throws for the first slot); `None` when the hook throws.
   */
  function GetTimeSlots(start: Num, intervalMin: Num, totalMin: Num): (r: Option<seq<int>>)
    ensures r.None? <==> SlotCount(intervalMin, totalMin).None? || (SlotCount(intervalMin, totalMin).value > 0 && start.NaN?)
    ensures r.Some? ==> |r.value| == SlotCount(intervalMin, totalMin).value
    ensures r.Some? && r.value != [] ==> start.Int? && intervalMin.Int?
    ensures r.Some? && start.Int? && intervalMin.Int? ==>
      forall i :: 0 <= i < |r.value| ==> r.value[i] == start.value + i * intervalMin.value * 60000
  {
    var count := SlotCount(intervalMin, totalMin);
    if count.None? then None
    else if count.value == 0 then Some([])
    else if start.NaN? then None
    else Some(seq(count.value, i => start.value + i * intervalMin.value * 60 * 1000))
  }

  /**
   * With a positive interval, a parsed start and a total within range: `totalMin div intervalMin`
   * slots, each exactly one interval after the previous, all before `start + totalMin` minutes,
   * which is itself never a slot.
   */
  lemma TimeSlotsShape(start: int, intervalMin: int, totalMin: int)
    requires intervalMin > 0 && 0 <= totalMin / intervalMin <= MaxArrayLength
    ensures GetTimeSlots(Int(start), Int(intervalMin), Int(totalMin)).Some?
    ensures var slots := GetTimeSlots(Int(start), Int(intervalMin), Int(totalMin)).value;
      |slots| == totalMin / intervalMin &&
      (forall i :: 0 <= i < |slots| ==> slots[i] == start + i * intervalMin * 60000) &&
      (forall i :: 0 < i < |slots| ==> slots[i] == slots[i - 1] + intervalMin * 60000) &&
      (forall i :: 0 <= i < |slots| ==> slots[i] < start + totalMin * 60000)
  {
    var slots := GetTimeSlots(Int(start), Int(intervalMin), Int(totalMin)).value;
    var q := totalMin / intervalMin;
    forall i | 0 < i < |slots|
      ensures slots[i] == slots[i - 1] + intervalMin * 60000
    {
      HmTime.MulStep(i - 1, intervalMin);
    }
    forall i | 0 <= i < |slots|
      ensures slots[i] < start + totalMin * 60000
    {
      HmTime.MulMono(i + 1, q, intervalMin);
      HmTime.MulStep(i, intervalMin);
      assert i * intervalMin < totalMin;
    }
  }

  /**
   * The degenerate inputs: a zero interval with a positive total makes `Array.from` throw; a
   * negative total, or an unreadable interval or amount, yields no slots at all.
   */
  lemma TimeSlotsDegenerate(start: Num, intervalMin: Num, totalMin: Num)
    ensures intervalMin == Int(0) && totalMin.Int? && totalMin.value > 0 ==> GetTimeSlots(start, intervalMin, totalMin).None?
    ensures intervalMin.Int? && intervalMin.value > 0 && totalMin.Int? && totalMin.value < 0 ==>
      GetTimeSlots(start, intervalMin, totalMin) == Some([])
    ensures intervalMin.NaN? || totalMin.NaN? ==> GetTimeSlots(start, intervalMin, totalMin) == Some([])
  {
    if intervalMin.Int? && intervalMin.value > 0 && totalMin.Int? && totalMin.value < 0 {
      assert totalMin.value / intervalMin.value < 0;
    }
  }
}
