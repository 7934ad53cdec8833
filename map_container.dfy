/**
 * The map container hook of src/components/pages/map/mapContainer/hooks.ts: the places still to
 * be put on the map, and the payloads of the two marker actions it dispatches (adding a marker
 * at the centre of the view, and moving a dragged marker).
 */
module MapContainer {
  import opened Wrappers
  import opened Seqs
  import opened Models
  import MapSlice
  import MapSelectors
  import MapView

  /**
   * `markerPlaces`: the unplaced places, computed over the markers `selectMapData` resolved. The
   * resolution keeps every place id, so this is the very list the map view offers.
   */
  function MarkerPlaces(store: MapData, places: seq<Place>): (r: seq<Place>)
    ensures r == MapView.UnselectedPlaces(places, store.mapMarkers)
    ensures forall p :: p in r <==> p in places && !Referenced(store.mapMarkers, p.id)
  {
    var resolved := MapSelectors.SelectMapData(store, places).mapMarkers;
    assert forall id :: Referenced(resolved, id) <==> Referenced(store.mapMarkers, id) by {
      forall id ensures Referenced(resolved, id) <==> Referenced(store.mapMarkers, id) {
        if Referenced(resolved, id) {
          var m :| m in resolved && m.placeId == id;
          var i :| 0 <= i < |resolved| && resolved[i] == m;
          assert store.mapMarkers[i] in store.mapMarkers;
        }
        if Referenced(store.mapMarkers, id) {
          var m :| m in store.mapMarkers && m.placeId == id;
          var i :| 0 <= i < |store.mapMarkers| && store.mapMarkers[i] == m;
          assert resolved[i] in resolved;
        }
      }
    }
    FilterCongruent(places, MapView.Unplaced(resolved), MapView.Unplaced(store.mapMarkers));
    MapView.UnselectedPlaces(places, resolved)
  }

  /**
   * `handleAddMarker(place)`: nothing without a mounted zoom wrapper; otherwise a marker for the
   * place, carrying the place itself, at `pos` (the view centre in image coordinates).
   */
  function HandleAddMarker(place: Place, wrapperReady: bool, pos: Pos): (r: Option<MapMarker>)
    ensures r.None? <==> !wrapperReady
    ensures r.Some? ==> r.value.placeId == place.id && r.value.place == Some(Is(place)) && r.value.pos == pos
  {
    if !wrapperReady then None else Some(MapMarker(place.id, Some(Is(place)), pos))
  }

  /** Adding the marker `handleAddMarker` builds takes its place off the list of places to put on the map. */
  lemma AddedPlaceLeavesList(store: MapData, places: seq<Place>, place: Place, pos: Pos)
    ensures var added := HandleAddMarker(place, true, pos).value;
      place !in MarkerPlaces(store.(mapMarkers := store.mapMarkers + [added]), places)
  {
    var added := HandleAddMarker(place, true, pos).value;
    assert added in store.mapMarkers + [added];
  }

  /**
   * `handleUpdateMarker`: the first resolved marker with the dragged id, if any, is moved. There is
   * no action when no marker has the id, the drag has no delta, or the zoom wrapper is missing;
   * otherwise the payload keeps that marker's id and resolved place and only its position changes,
   * to `reposition` of the old one (the drag delta undone by the view's pan and zoom).
   */
  function HandleUpdateMarker(markers: seq<MapMarker>, activeId: int, hasDelta: bool, wrapperReady: bool,
                              reposition: Pos -> Pos): (r: Option<MapMarker>)
    ensures r.None? <==> !hasDelta || !wrapperReady || forall i :: 0 <= i < |markers| ==> markers[i].placeId != activeId
    ensures r.Some? ==> (exists i :: (0 <= i < |markers| && markers[i].placeId == activeId &&
      (forall j :: 0 <= j < i ==> markers[j].placeId != activeId) &&
      r.value == MapMarker(markers[i].placeId, markers[i].place, reposition(markers[i].pos))))
  {
    var found := MapSlice.FirstMarkerIndex(markers, activeId);
    if found.None? || !hasDelta || !wrapperReady then None
    else
      var m := markers[found.value];
      Some(MapMarker(m.placeId, m.place, reposition(m.pos)))
  }

  /** Markers with the same place ids, in the same order, have the same first marker for every id. */
  lemma SameIdsSameIndex(a: seq<MapMarker>, b: seq<MapMarker>, id: int)
    requires |a| == |b| && forall i :: 0 <= i < |a| ==> a[i].placeId == b[i].placeId
    ensures MapSlice.FirstMarkerIndex(a, id) == MapSlice.FirstMarkerIndex(b, id)
  {
    var fa, fb := MapSlice.FirstMarkerIndex(a, id), MapSlice.FirstMarkerIndex(b, id);
    if fa.Some? && fb.Some? {
      assert !(fa.value < fb.value) && !(fb.value < fa.value);
    }
  }

  /**
   * Dispatching the move to the map slice: the stored marker it matches is the first one with the
   * dragged id; it keeps its id, takes the resolved place, and moves; every other marker and the
   * list's length are unchanged.
   */
  lemma MoveUpdatesStore(store: MapData, places: seq<Place>, activeId: int, reposition: Pos -> Pos, i: nat)
    requires i < |store.mapMarkers| && store.mapMarkers[i].placeId == activeId
    requires forall j :: 0 <= j < i ==> store.mapMarkers[j].placeId != activeId
    ensures var resolved := MapSelectors.SelectMapData(store, places).mapMarkers;
      var payload := HandleUpdateMarker(resolved, activeId, true, true, reposition);
      payload.Some? &&
      var after := MapSlice.UpdatedMarkers(store.mapMarkers, payload.value);
      |after| == |store.mapMarkers| &&
      after[i] == MapMarker(activeId, resolved[i].place, reposition(store.mapMarkers[i].pos)) &&
      (forall j :: 0 <= j < |after| && j != i ==> after[j] == store.mapMarkers[j])
  {
    var resolved := MapSelectors.SelectMapData(store, places).mapMarkers;
    SameIdsSameIndex(resolved, store.mapMarkers, activeId);
    var k := MapSlice.FirstMarkerIndex(store.mapMarkers, activeId).value;
    assert !(k < i) && !(i < k);
    var payload := HandleUpdateMarker(resolved, activeId, true, true, reposition);
    assert payload.value == MapMarker(activeId, resolved[i].place, reposition(resolved[i].pos));
  }
}
