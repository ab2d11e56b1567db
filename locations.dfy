/** `get_lat_long` and `get_nearby_places`: the projections the endpoint takes
    from the geocoding and places replies once they are decoded. Coordinates
    are carried through untouched. */
module Locations {
  import opened Wrappers

  datatype Coordinates = Coordinates(latitude: real, longitude: real)

  /** One entry of the geocoding reply's `results`. */
  datatype GeoResult = GeoResult(latitude: real, longitude: real)

  /** One entry of the places reply's `results`; only `name` is read. */
  datatype PlaceResult = PlaceResult(name: string)

  /** The first result's latitude and longitude; `None` when there is no
      result, where the lookup raises. */
  function LatLong(results: seq<GeoResult>): (r: Option<Coordinates>)
    ensures r.Some? <==> results != []
  {
    if results == [] then None else Some(Coordinates(results[0].latitude, results[0].longitude))
  }

  /** Only the first result counts: whatever follows it changes nothing. */
  lemma LatLongOfFirst(first: GeoResult, rest: seq<GeoResult>)
    ensures LatLong([first] + rest) == LatLong([first])
    ensures LatLong([first]) == Some(Coordinates(first.latitude, first.longitude))
  {
  }

  /** Each result's name, in order. */
  function PlaceNames(results: seq<PlaceResult>): (names: seq<string>)
    ensures |names| == |results|
    ensures forall i :: 0 <= i < |results| ==> names[i] == results[i].name
  {
    if results == [] then [] else [results[0].name] + PlaceNames(results[1..])
  }

  /** The projection distributes over concatenation, so the names keep the
      provider's order and grouping. */
  lemma {:induction false} PlaceNamesAppend(a: seq<PlaceResult>, b: seq<PlaceResult>)
    ensures PlaceNames(a + b) == PlaceNames(a) + PlaceNames(b)
  {
    if a != [] {
      assert (a + b)[1..] == a[1..] + b;
      PlaceNamesAppend(a[1..], b);
    }
  }
}
