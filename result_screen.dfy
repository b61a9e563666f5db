/** The result screen of frontend/src/routes/_layout/result.tsx: it asks
    the backend for a recommendation for the file in the address, lists the
    places and draws them on a map as numbered markers joined by a line.
    The map library is the object `MapLibrary`, whose constructors are
    recorded in the order they are called. */
module ResultScreen {
  import opened Wrappers
  import opened NaverClient
  import opened RecommendationsApi

  datatype LatLng = LatLng(lat: real, lng: real)

  const DefaultCentre: LatLng := LatLng(37.5665, 126.9780)
  const Zoom: int := 14
  const LineColour: string := "#319795"
  const LineWeight: int := 5
  const LineOpacity: real := 0.7

  datatype MapInstance = MapInstance(centre: LatLng, zoom: int)
  /** A marker on map number `mapId`, labelled with its 1-based position. */
  datatype Marker = Marker(position: LatLng, mapId: nat, title: string, badge: nat)
  datatype Polyline = Polyline(mapId: nat, path: seq<LatLng>, colour: string, weight: int, opacity: real)

  function PositionOf(p: Place): LatLng {
    LatLng(p.lat, p.lng)
  }

  /** Lines 55-56: the first place, or the centre of Seoul without places. */
  function Centre(places: seq<Place>): (c: LatLng)
    ensures places != [] ==> c == PositionOf(places[0])
    ensures places == [] ==> c == DefaultCentre
  {
    if |places| > 0 then PositionOf(places[0]) else DefaultCentre
  }

  /** The path through the places in list order. */
  function PathOf(places: seq<Place>): (r: seq<LatLng>)
    ensures |r| == |places|
    ensures forall k :: 0 <= k < |places| ==> r[k] == PositionOf(places[k])
    decreases |places|
  {
    if places == [] then [] else PathOf(places[..|places| - 1]) + [PositionOf(places[|places| - 1])]
  }

  /** The markers for the places, numbered from 1 in list order. */
  function MarkersFor(places: seq<Place>, mapId: nat): (r: seq<Marker>)
    ensures |r| == |places|
    ensures forall k :: 0 <= k < |places| ==>
              r[k] == Marker(PositionOf(places[k]), mapId, places[k].name, k + 1)
    decreases |places|
  {
    if places == [] then []
    else
      var n := |places| - 1;
      MarkersFor(places[..n], mapId) + [Marker(PositionOf(places[n]), mapId, places[n].name, n + 1)]
  }

  /** The drawing side of the map library: every map, marker and line
      created, none ever removed. */
  class MapLibrary {
    var maps: seq<MapInstance>
    var markers: seq<Marker>
    var polylines: seq<Polyline>

    constructor ()
      ensures maps == [] && markers == [] && polylines == []
    {
      maps, markers, polylines := [], [], [];
    }

    method NewMap(centre: LatLng, zoom: int) returns (id: nat)
      modifies this`maps
      ensures maps == old(maps) + [MapInstance(centre, zoom)] && id == |old(maps)|
    {
      id := |maps|;
      maps := maps + [MapInstance(centre, zoom)];
    }

    method NewMarker(m: Marker)
      modifies this`markers
      ensures markers == old(markers) + [m]
    {
      markers := markers + [m];
    }

    method NewPolyline(l: Polyline)
      modifies this`polylines
      ensures polylines == old(polylines) + [l]
    {
      polylines := polylines + [l];
    }
  }

  /** Lines 46-50: a request only for a non-empty file id. */
  function RequestOnEntry(fileId: Option<string>): (r: Option<string>)
    ensures r.Some? <==> fileId.Some? && fileId.value != ""
    ensures r.Some? ==> r == fileId
  {
    if fileId.Some? && fileId.value != "" then fileId else None
  }

  datatype RequestState = Idle | Pending | Failed(message: Option<string>) | Succeeded

  /** One entry of the list (lines 153-178). */
  datatype ListItem = ListItem(number: nat, name: string, category: string, address: string,
                               detailLink: Option<string>)

  datatype View =
    | Loading
    | ErrorView(message: string)
    | Listing(title: Option<string>, keywords: seq<string>, items: seq<ListItem>)

  /** React renders a `null` field as nothing, and `place.link &&` shows
      the link only for a non-empty text. */
  function ItemOf(p: Place, k: nat): ListItem {
    ListItem(k + 1, p.name, p.category.GetOr(""), p.address.GetOr(""),
             if p.link.Some? && p.link.value != "" then p.link else None)
  }

  /** Lines 93-183: a spinner while the request runs, the error message
      when it failed, and otherwise the title, the keywords and the places
      of the last result, if any. */
  function ViewOf(state: RequestState, mapResult: Option<Recommendation>): (v: View)
    ensures state == Pending <==> v == Loading
    ensures state.Failed? <==> v.ErrorView?
    ensures state.Failed? ==> v.message == state.message.GetOr("")
    ensures v.Listing? ==>
              v.title == (if mapResult.Some? then Some(mapResult.value.title) else None)
    ensures v.Listing? && mapResult.Some? ==>
              v.keywords == mapResult.value.keywords
              && |v.items| == |mapResult.value.places|
              && forall k :: 0 <= k < |v.items| ==> v.items[k] == ItemOf(mapResult.value.places[k], k)
    ensures v.Listing? && mapResult.None? ==> v.keywords == [] && v.items == []
  {
    match state
    case Pending => Loading
    case Failed(message) => ErrorView(message.GetOr(""))
    case _ =>
      if mapResult.None? then Listing(None, [], [])
      else
        var places := mapResult.value.places;
        Listing(Some(mapResult.value.title), mapResult.value.keywords,
                seq(|places|, k requires 0 <= k < |places| => ItemOf(places[k], k)))
  }

  /** The numbers in the list are the labels on the markers, and both
      follow the order of the path. */
  lemma ListMatchesMarkers(r: Recommendation, mapId: nat)
    ensures var v := ViewOf(Succeeded, Some(r));
            var ms := MarkersFor(r.places, mapId);
            var path := PathOf(r.places);
            |v.items| == |ms| == |path|
            && forall k :: 0 <= k < |ms| ==>
                 v.items[k].number == ms[k].badge && v.items[k].name == ms[k].title
                 && ms[k].position == path[k]
  {
  }

  class ResultView {
    const fileId: Option<string>
    const library: MapLibrary
    /** `window.naver` is defined. */
    var libraryLoaded: bool
    /** The map container is in the page. */
    var containerMounted: bool
    var mapResult: Option<Recommendation>

    constructor (fileId: Option<string>, library: MapLibrary, libraryLoaded: bool)
      ensures this.fileId == fileId && this.library == library
      ensures this.libraryLoaded == libraryLoaded && !containerMounted && mapResult == None
    {
      this.fileId, this.library, this.libraryLoaded := fileId, library, libraryLoaded;
      containerMounted := false;
      mapResult := None;
    }

    /** Lines 52-91: without the library or the container nothing happens;
        otherwise one new map centred on the first place, a numbered marker
        per place, and a line through them when there are at least two.
        Earlier maps, markers and lines stay. */
    method InitMap(places: seq<Place>)
      modifies library
      ensures !(libraryLoaded && containerMounted) ==>
                library.maps == old(library.maps) && library.markers == old(library.markers)
                && library.polylines == old(library.polylines)
      ensures libraryLoaded && containerMounted ==>
                var id := |old(library.maps)|;
                && library.maps == old(library.maps) + [MapInstance(Centre(places), Zoom)]
                && library.markers == old(library.markers) + MarkersFor(places, id)
                && library.polylines == old(library.polylines)
                     + (if |places| > 1
                        then [Polyline(id, PathOf(places), LineColour, LineWeight, LineOpacity)]
                        else [])
    {
      if !libraryLoaded || !containerMounted {
        return;
      }
      var id := library.NewMap(Centre(places), Zoom);
      var path: seq<LatLng> := [];
      var i := 0;
      while i < |places|
        invariant 0 <= i <= |places|
        invariant path == PathOf(places[..i])
        invariant library.markers == old(library.markers) + MarkersFor(places[..i], id)
        invariant library.maps == old(library.maps) + [MapInstance(Centre(places), Zoom)]
        invariant library.polylines == old(library.polylines)
      {
        var latLng := PositionOf(places[i]);
        path := path + [latLng];
        library.NewMarker(Marker(latLng, id, places[i].name, i + 1));
        assert places[..i + 1][..i] == places[..i];
        i := i + 1;
      }
      assert places[..i] == places;
      if |path| > 1 {
        library.NewPolyline(Polyline(id, path, LineColour, LineWeight, LineOpacity));
      }
    }

    /** Lines 40-43: the result is kept, the listing with the map container
        renders, and the map is drawn from the result's places. */
    method OnRecommendSuccess(data: Recommendation)
      modifies this, library
      ensures mapResult == Some(data) && containerMounted
      ensures libraryLoaded == old(libraryLoaded)
      ensures libraryLoaded ==>
                var id := |old(library.maps)|;
                && library.maps == old(library.maps) + [MapInstance(Centre(data.places), Zoom)]
                && library.markers == old(library.markers) + MarkersFor(data.places, id)
                && library.polylines == old(library.polylines)
                     + (if |data.places| > 1
                        then [Polyline(id, PathOf(data.places), LineColour, LineWeight, LineOpacity)]
                        else [])
      ensures !libraryLoaded ==>
                library.maps == old(library.maps) && library.markers == old(library.markers)
                && library.polylines == old(library.polylines)
    {
      mapResult := Some(data);
      containerMounted := true;
      InitMap(data.places);
    }
  }

  /** Two results drawn on the same screen leave both maps and all their
      markers in place: nothing is cleared between drawings. */
  method DrawingsAccumulate(view: ResultView, first: Recommendation, second: Recommendation)
    requires view.libraryLoaded && view.library.maps == [] && view.library.markers == []
    modifies view, view.library
    ensures |view.library.maps| == 2
    ensures view.library.markers == MarkersFor(first.places, 0) + MarkersFor(second.places, 1)
  {
    view.OnRecommendSuccess(first);
    view.OnRecommendSuccess(second);
  }
}
