/**
 * The debug view hook of src/components/pages/debug/hooks.ts: the JSON document it shows pairs
 * the timeline state with the map data resolved the way the map view resolves it.
 */
module DebugView {
  import opened Wrappers
  import opened Models
  import MapView
  import MapSelectors

  /** The `json` object: the timeline state as it is, and the resolved map data. */
  datatype DebugDocument<T> = DebugDocument(timeline: T, mapData: MapView.MarkerView)

  /**
   * `json`: the timeline untouched; the image copied; every stored marker, in order, keeping its id
   * and position, with the first configured place of that id, or `undefined` once it is deleted.
   */
  function DebugJson<T>(timeline: T, store: MapData, places: seq<Place>): (r: DebugDocument<T>)
    ensures r.timeline == timeline && r.mapData.mapImage == store.mapImage
    ensures |r.mapData.mapMarkers| == |store.mapMarkers|
    ensures forall i :: 0 <= i < |store.mapMarkers| ==>
      r.mapData.mapMarkers[i].placeId == store.mapMarkers[i].placeId && r.mapData.mapMarkers[i].pos == store.mapMarkers[i].pos
    ensures forall i :: 0 <= i < |store.mapMarkers| ==>
      (r.mapData.mapMarkers[i].place == Some(Undefined) <==> forall k :: 0 <= k < |places| ==> places[k].id != store.mapMarkers[i].placeId)
    ensures forall i :: 0 <= i < |store.mapMarkers| && r.mapData.mapMarkers[i].place != Some(Undefined) ==>
      r.mapData.mapMarkers[i].place.Some? && r.mapData.mapMarkers[i].place.value.Is? &&
      r.mapData.mapMarkers[i].place.value.place in places
    ensures forall i, k :: 0 <= i < |store.mapMarkers| && FirstWithId(places, store.mapMarkers[i].placeId, k) ==>
      r.mapData.mapMarkers[i].place == Some(Is(places[k]))
  {
    DebugDocument(timeline, MapView.ResolveMapData(store, places))
  }

  /**
   * The two views disagree only on a deleted place: the selector writes `null` where the debug
   * and map views leave `undefined`, and a place that exists resolves to the same place in both.
   */
  lemma DebugAgreesWithSelector<T>(timeline: T, store: MapData, places: seq<Place>, i: nat)
    requires i < |store.mapMarkers|
    ensures var debug := DebugJson(timeline, store, places).mapData.mapMarkers[i];
      var selected := MapSelectors.SelectMapData(store, places).mapMarkers[i];
      (debug.place == Some(Undefined) <==> selected.place == Some(Null)) &&
      (debug.place != Some(Undefined) ==> debug == selected)
  {
    var found := FindPlace(places, store.mapMarkers[i].placeId);
    if found.None? {
      assert forall p :: p in places ==> p.id != store.mapMarkers[i].placeId;
    }
  }
}
