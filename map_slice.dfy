/**
 * The map slice of src/features/map/mapSlice.ts: the map image, the markers placed on it and the
 * selected time, changed in place by the slice's reducers.
 */
module MapSlice {
  import opened Wrappers
  import opened Seqs
  import opened Models

  /** The test of the marker lookup: `(m) => m.placeId === id`. */
  function HasPlaceId(id: int): MapMarker -> bool {
    (m: MapMarker) => m.placeId == id
  }

  /** `state.mapMarkers.find((m) => m.placeId === id)`, as the index of the marker found. */
  function FirstMarkerIndex(markers: seq<MapMarker>, id: int): (r: Option<nat>)
    ensures r.None? <==> forall i :: 0 <= i < |markers| ==> markers[i].placeId != id
    ensures r.Some? ==> r.value < |markers| && markers[r.value].placeId == id
    ensures r.Some? ==> forall i :: 0 <= i < r.value ==> markers[i].placeId != id
  {
    FirstIndex(markers, HasPlaceId(id))
  }

  /**
   * `Object.assign(marker, updated)`: the payload's own properties overwrite the marker's. The
   * payload always carries `placeId` and `pos`; a payload without a `place` key keeps the
   * marker's place.
   */
  function Assign(marker: MapMarker, updated: MapMarker): (r: MapMarker)
    ensures r.placeId == updated.placeId && r.pos == updated.pos
    ensures r.place == if updated.place.Some? then updated.place else marker.place
  {
    MapMarker(updated.placeId, if updated.place.Some? then updated.place else marker.place, updated.pos)
  }

  /**
   * The markers after `updateMapMarker`: the first marker with the payload's id takes the
   * payload's fields; with no such marker the list is unchanged. Length, order and every other
   * marker are kept.
   */
  function UpdatedMarkers(markers: seq<MapMarker>, updated: MapMarker): (r: seq<MapMarker>)
    ensures |r| == |markers|
    ensures (forall i :: 0 <= i < |markers| ==> markers[i].placeId != updated.placeId) ==> r == markers
    ensures forall i :: (0 <= i < |markers| && markers[i].placeId == updated.placeId &&
                         (forall j :: 0 <= j < i ==> markers[j].placeId != updated.placeId)) ==>
      r == markers[i := Assign(markers[i], updated)]
  {
    var found := FirstMarkerIndex(markers, updated.placeId);
    if found.None? then markers else markers[found.value := Assign(markers[found.value], updated)]
  }

  /** The test `deleteMapMarker` filters by: `(m) => m.placeId !== id`. */
  function OtherPlace(id: int): MapMarker -> bool {
    (m: MapMarker) => m.placeId != id
  }

  /**
   * The markers after `deleteMapMarker(id)`: those with a different place id, in their order and
   * with their repeats; every marker with the id is gone.
   */
  function WithoutPlace(markers: seq<MapMarker>, id: int): (r: seq<MapMarker>)
    ensures forall m :: m in r <==> m in markers && m.placeId != id
    ensures IsSubsequence(r, markers)
    ensures forall m :: multiset(r)[m] == if m.placeId != id then multiset(markers)[m] else 0
  {
    FilterCounts(markers, OtherPlace(id));
    Filter(markers, OtherPlace(id))
  }

  /** The map slice's state. */
  class MapStore {
    var mapImage: string
    var mapMarkers: seq<MapMarker>
    var selectedTime: string

    /** The state as one value. */
    function Snapshot(): MapData
      reads this
    {
      MapData(mapImage, mapMarkers, selectedTime)
    }

    /** The initial state: no image, no markers, no selected time. */
    constructor ()
      ensures Snapshot() == MapData("", [], "")
    {
      mapImage := "";
      mapMarkers := [];
      selectedTime := "";
    }

    /** `save`: the payload replaces the whole map state. */
    method Save(payload: MapData)
      modifies this
      ensures Snapshot() == payload
    {
      mapImage := payload.mapImage;
      mapMarkers := payload.mapMarkers;
      selectedTime := payload.selectedTime;
    }

    /** `updateMapImage`: only the image changes. */
    method UpdateMapImage(image: string)
      modifies this
      ensures Snapshot() == old(Snapshot()).(mapImage := image)
    {
      mapImage := image;
    }

    /** `addMapMarker`: the marker is appended, whether or not its place already has one. */
    method AddMapMarker(marker: MapMarker)
      modifies this
      ensures Snapshot() == old(Snapshot()).(mapMarkers := old(mapMarkers) + [marker])
    {
      mapMarkers := mapMarkers + [marker];
    }

    /** `updateMapMarker`: the first marker with the payload's id is overwritten; no match, no change. */
    method UpdateMapMarker(updated: MapMarker)
      modifies this
      ensures Snapshot() == old(Snapshot()).(mapMarkers := UpdatedMarkers(old(mapMarkers), updated))
    {
      var found := FirstMarkerIndex(mapMarkers, updated.placeId);
      if found.None? {
        return;
      }
      var i := found.value;
      mapMarkers := mapMarkers[i := Assign(mapMarkers[i], updated)];
    }

    /** `deleteMapMarker`: every marker with that place id is removed. */
    method DeleteMapMarker(id: int)
      modifies this
      ensures Snapshot() == old(Snapshot()).(mapMarkers := WithoutPlace(old(mapMarkers), id))
    {
      mapMarkers := Filter(mapMarkers, OtherPlace(id));
    }

    /** `updateSelectedTime`: only the selected time changes. */
    method UpdateSelectedTime(time: string)
      modifies this
      ensures Snapshot() == old(Snapshot()).(selectedTime := time)
    {
      selectedTime := time;
    }
  }

  /**
   * Deleting keeps the other markers in their order, removes nothing when no marker has the id,
   * and deleting the same id again changes nothing.
   */
  lemma DeleteProperties(markers: seq<MapMarker>, id: int)
    ensures IsSubsequence(WithoutPlace(markers, id), markers)
    ensures (forall i :: 0 <= i < |markers| ==> markers[i].placeId != id) ==> WithoutPlace(markers, id) == markers
    ensures WithoutPlace(WithoutPlace(markers, id), id) == WithoutPlace(markers, id)
  {
    var p := OtherPlace(id);
    if forall i :: 0 <= i < |markers| ==> markers[i].placeId != id {
      FilterKeepsAll(markers, p);
    }
    FilterIdempotent(markers, p);
  }

  /** Adding a marker for a place that had none and then deleting that place's markers restores the list. */
  lemma AddThenDelete(markers: seq<MapMarker>, marker: MapMarker)
    requires forall i :: 0 <= i < |markers| ==> markers[i].placeId != marker.placeId
    ensures WithoutPlace(markers + [marker], marker.placeId) == markers
  {
    var p := OtherPlace(marker.placeId);
    FilterAppend(markers, marker, p);
    FilterKeepsAll(markers, p);
  }

  /**
   * After an update, looking the payload's id up again finds the same marker, now at the
   * payload's position.
   */
  lemma UpdateThenFind(markers: seq<MapMarker>, updated: MapMarker)
    requires exists i :: 0 <= i < |markers| && markers[i].placeId == updated.placeId
    ensures var r := UpdatedMarkers(markers, updated);
      FirstMarkerIndex(r, updated.placeId) == FirstMarkerIndex(markers, updated.placeId) &&
      r[FirstMarkerIndex(r, updated.placeId).value].pos == updated.pos
  {
    var i := FirstMarkerIndex(markers, updated.placeId).value;
    var r := UpdatedMarkers(markers, updated);
    assert r == markers[i := Assign(markers[i], updated)];
    assert r[i].placeId == updated.placeId;
    assert forall j :: 0 <= j < i ==> r[j] == markers[j];
  }
}
