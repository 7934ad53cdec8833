/**
 * The record shapes of src/features/models.ts (characters and places carry a numeric `id`), the
 * map records the map slice stores, and the one lookup every place resolution shares:
 * `places.find((p) => p.id === placeId)`.
 */
module Models {
  import opened Wrappers

  datatype Scenario = Scenario(name: string, memo: string)

  datatype Character = Character(id: int, name: string, playerName: string, color: string, memo: string)

  datatype Place = Place(id: int, name: string, color: string, memo: string)

  /** The timeline settings: "HH:mm" interval and bounds, and the cast and places of the scenario. */
  datatype TimelineConfig = TimelineConfig(
    interval: string,
    startTime: string,
    endTime: string,
    characters: seq<Character>,
    places: seq<Place>)

  /** A marker position on the map image; its coordinates are never inspected here. */
  datatype Pos = Pos(x: real, y: real)

  /** What a marker's `place` property holds: `null`, `undefined`, or a place object. */
  datatype PlaceRef = Null | Undefined | Is(place: Place)

  /**
   * A map marker. `place` is `None` when the object has no `place` key at all (markers dropped
   * from the place list are stored that way), which matters to `Object.assign`.
   * The marker's `placeId` is the place's numeric `id`: markers are added with `placeId: place.id`,
   * and the ids handed back for dragging and deleting are the stored `marker.placeId` values.
   */
  datatype MapMarker = MapMarker(placeId: int, place: Option<PlaceRef>, pos: Pos)

  /** The map slice's state. */
  datatype MapData = MapData(mapImage: string, mapMarkers: seq<MapMarker>, selectedTime: string)

  /** An option of a select box: the value and its label text. */
  datatype SelectOption = SelectOption(value: string, text: string)

  /** `places.find((p) => p.id === id)`: the first place with that id, or nothing. */
  function FindPlace(places: seq<Place>, id: int): (r: Option<Place>)
    ensures r.None? <==> forall i :: 0 <= i < |places| ==> places[i].id != id
    ensures r.Some? ==> r.value.id == id
    ensures r.Some? ==> (exists k :: 0 <= k < |places| && places[k] == r.value && (forall i :: 0 <= i < k ==> places[i].id != id))
  {
    if places == [] then None
    else if places[0].id == id then Some(places[0])
    else
      var r := FindPlace(places[1..], id);
      assert forall i :: 1 <= i < |places| ==> places[i] == places[1..][i - 1];
      if r.Some? then
        var k :| 0 <= k < |places[1..]| && places[1..][k] == r.value &&
                 (forall i :: 0 <= i < k ==> places[1..][i].id != id);
        assert places[k + 1] == r.value;
        r
      else r
  }

  /** True when some marker references the place `id`: `markers.some((m) => id === m.placeId)`. */
  predicate Referenced(markers: seq<MapMarker>, id: int) {
    exists m :: m in markers && m.placeId == id
  }

  /** The ids of a list of places are pairwise distinct. */
  predicate UniqueIds(places: seq<Place>) {
    forall i, j :: 0 <= i < j < |places| ==> places[i].id != places[j].id
  }

  /** `k` is the first index of a place with this id. */
  predicate FirstWithId(places: seq<Place>, id: int, k: int) {
    0 <= k < |places| && places[k].id == id && forall j :: 0 <= j < k ==> places[j].id != id
  }

  /** The lookup finds the place at the first index carrying the id. */
  lemma FindPlaceFirst(places: seq<Place>, id: int, k: int)
    requires FirstWithId(places, id, k)
    ensures FindPlace(places, id) == Some(places[k])
  {
    var r := FindPlace(places, id);
    var j :| 0 <= j < |places| && places[j] == r.value && (forall i :: 0 <= i < j ==> places[i].id != id);
    assert places[j].id == id;
    assert j == k;
  }

  /** With distinct ids, the place found for an id is the one place in the list carrying it. */
  lemma FindPlaceUnique(places: seq<Place>, k: nat)
    requires UniqueIds(places) && k < |places|
    ensures FindPlace(places, places[k].id) == Some(places[k])
  {
    var r := FindPlace(places, places[k].id);
    var j :| 0 <= j < |places| && places[j] == r.value &&
             (forall i :: 0 <= i < j ==> places[i].id != places[k].id);
    assert places[j].id == places[k].id;
    assert j == k;
  }
}
