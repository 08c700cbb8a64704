/**
 * The map page's two decisions (mapFunctions.js): where to centre the map,
 * and where and under which name to pin the recommended study spot. The page
 * globals `CURRENT_USER`, `RECOMMENDED` and `SPOTS` are parameters.
 */
module MapView {
  import opened Options
  import opened Seqs

  datatype LatLng = LatLng(lat: real, lng: real)

  /** The coordinates of `CURRENT_USER`; either may be missing. */
  datatype UserPosition = UserPosition(latitude: Option<real>, longitude: Option<real>)

  /** `RECOMMENDED`: a spot name and coordinates, each possibly missing. */
  datatype Recommendation = Recommendation(spot: Option<string>, lat: Option<real>, lng: Option<real>)

  /** One entry of `SPOTS`. */
  datatype MapSpot = MapSpot(name: string, lat: real, lng: real)

  /** The recommended-spot marker: its position and its title (which may be missing). */
  datatype Pin = Pin(pos: LatLng, name: Option<string>)

  /** The campus default centre. */
  const DefaultLat: real := 40.4237
  const DefaultLng: real := -86.9212

  /** JavaScript truthiness of a number: present and not zero. */
  predicate Truthy(x: Option<real>) {
    x.Some? && x.value != 0.0
  }

  /** JavaScript truthiness of a string: present and not empty. */
  predicate TruthyText(s: Option<string>) {
    s.Some? && s.value != ""
  }

  /** The number when it is truthy (present and non-zero), the fallback otherwise. */
  function OrElse(x: Option<real>, fallback: real): real {
    if Truthy(x) then x.value else fallback
  }

  /**
   * `defaultCenter`: the campus default without a current user; with one,
   * each of the user's coordinates where it is truthy, the default otherwise.
   */
  function DefaultCenter(current: Option<UserPosition>): (c: LatLng)
    ensures current.None? ==> c == LatLng(DefaultLat, DefaultLng)
    ensures c.lat != 0.0 && c.lng != 0.0
    ensures c.lat == DefaultLat || (current.Some? && current.value.latitude == Some(c.lat))
    ensures c.lng == DefaultLng || (current.Some? && current.value.longitude == Some(c.lng))
  {
    match current
    case None => LatLng(DefaultLat, DefaultLng)
    case Some(u) => LatLng(OrElse(u.latitude, DefaultLat), OrElse(u.longitude, DefaultLng))
  }

  /**
   * Each coordinate falls back on its own: a missing or zero latitude gives
   * the default latitude whatever the longitude is, and the other way round.
   */
  lemma DefaultCenterPerCoordinate(u: UserPosition)
    ensures DefaultCenter(Some(u)).lat == if Truthy(u.latitude) then u.latitude.value else DefaultLat
    ensures DefaultCenter(Some(u)).lng == if Truthy(u.longitude) then u.longitude.value else DefaultLng
  {
  }

  /** There is a recommendation and both its coordinates are truthy (present and non-zero). */
  predicate HasCoordinates(rec: Option<Recommendation>) {
    rec.Some? && Truthy(rec.value.lat) && Truthy(rec.value.lng)
  }

  /** The index of the first spot named as the recommendation names it, when it names one. */
  function NamedSpot(rec: Option<Recommendation>, spots: seq<MapSpot>): Option<nat> {
    if rec.Some? && TruthyText(rec.value.spot) then
      var name := rec.value.spot.value;
      FirstIndex((s: MapSpot) => s.name == name, spots)
    else None
  }

  /**
   * The recommended-spot resolution: the recommendation's own coordinates
   * when both are truthy; else the first spot of that name; else the first
   * spot of all. Nothing when even that does not exist (`SPOTS[0]` of an
   * empty list throws in the source).
   */
  function ResolveRecommended(rec: Option<Recommendation>, spots: seq<MapSpot>): (r: Option<Pin>)
    ensures r.None? <==> !HasCoordinates(rec) && NamedSpot(rec, spots).None? && spots == []
    ensures r.Some? ==> r.value.pos.lat != 0.0 || exists k :: 0 <= k < |spots| && r.value.pos == LatLng(spots[k].lat, spots[k].lng)
  {
    if HasCoordinates(rec) then
      Some(Pin(LatLng(rec.value.lat.value, rec.value.lng.value), rec.value.spot))
    else
      match NamedSpot(rec, spots)
      case Some(k) => Some(Pin(LatLng(spots[k].lat, spots[k].lng), rec.value.spot))
      case None =>
        if spots == [] then None
        else Some(Pin(LatLng(spots[0].lat, spots[0].lng), Some(spots[0].name)))
  }

  /** Truthy coordinates on the recommendation win, with its spot name as the title; a zero latitude does not count. */
  lemma RecommendedCoordinatesWin(spot: Option<string>, lat: real, lng: real, spots: seq<MapSpot>)
    ensures lat != 0.0 && lng != 0.0 ==>
              ResolveRecommended(Some(Recommendation(spot, Some(lat), Some(lng))), spots) == Some(Pin(LatLng(lat, lng), spot))
    ensures !HasCoordinates(Some(Recommendation(spot, Some(0.0), Some(lng))))
  {
  }

  /**
   * Without usable coordinates, a spot name carried by some entry of `SPOTS`
   * picks the first entry of that name, and the title is that name.
   */
  lemma RecommendedNameLookup(rec: Option<Recommendation>, spots: seq<MapSpot>, k: nat)
    requires !HasCoordinates(rec) && rec.Some? && TruthyText(rec.value.spot)
    requires k < |spots| && spots[k].name == rec.value.spot.value
    requires forall j :: 0 <= j < k ==> spots[j].name != rec.value.spot.value
    ensures ResolveRecommended(rec, spots) == Some(Pin(LatLng(spots[k].lat, spots[k].lng), rec.value.spot))
  {
  }

  /**
   * With neither usable coordinates nor a listed name, the pin falls back to
   * the first spot, position and name alike.
   */
  lemma RecommendedFallback(rec: Option<Recommendation>, spots: seq<MapSpot>)
    requires !HasCoordinates(rec)
    requires !(rec.Some? && TruthyText(rec.value.spot) && exists k :: 0 <= k < |spots| && spots[k].name == rec.value.spot.value)
    requires spots != []
    ensures ResolveRecommended(rec, spots) == Some(Pin(LatLng(spots[0].lat, spots[0].lng), Some(spots[0].name)))
  {
  }
}
