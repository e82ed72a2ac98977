/** The City entity of the layered client (src/domain/models/City.js): a
    record built from the server's city JSON, its coordinate pair and the
    viewport containment test. */
module CityModel {
  import opened Wrappers

  /** A city record as the server sends it. `city` holds the name. */
  datatype RawCity = RawCity(
    id: int,
    city: string,
    lat: real,
    lng: real,
    country: Option<string>,
    iso2: Option<string>,
    iso3: Option<string>,
    adminName: Option<string>,
    capital: Option<string>,
    population: Option<real>)

  datatype City = City(
    id: int,
    name: string,
    lat: real,
    lng: real,
    country: Option<string>,
    iso2: Option<string>,
    iso3: Option<string>,
    adminName: Option<string>,
    capital: Option<string>,
    population: Option<real>)

  /** A rectangular viewport in degrees. */
  datatype Bounds = Bounds(minLat: real, maxLat: real, minLng: real, maxLng: real)

  /** `new City(data)`: the record's `city` field becomes the name, every
      other field is taken over as it is. */
  function NewCity(data: RawCity): (c: City)
    ensures c.id == data.id && c.name == data.city
    ensures c.lat == data.lat && c.lng == data.lng
    ensures c.country == data.country && c.population == data.population
    ensures c.iso2 == data.iso2 && c.iso3 == data.iso3
    ensures c.adminName == data.adminName && c.capital == data.capital
  {
    City(data.id, data.city, data.lat, data.lng, data.country, data.iso2,
         data.iso3, data.adminName, data.capital, data.population)
  }

  /** The constructor loses nothing: distinct records give distinct cities. */
  lemma NewCityInjective(a: RawCity, b: RawCity)
    ensures NewCity(a) == NewCity(b) <==> a == b
  {
  }

  /** The `coordinates` getter: latitude first, then longitude. */
  function Coordinates(c: City): (r: seq<real>)
    ensures |r| == 2 && r[0] == c.lat && r[1] == c.lng
  {
    [c.lat, c.lng]
  }

  /** `isInBounds`: the city lies in the closed rectangle. */
  predicate IsInBounds(c: City, b: Bounds) {
    c.lat >= b.minLat && c.lat <= b.maxLat && c.lng >= b.minLng && c.lng <= b.maxLng
  }

  /** A city on a corner of the box counts as inside. */
  lemma BoundaryIsInside(c: City, b: Bounds)
    requires b.minLat <= b.maxLat && b.minLng <= b.maxLng
    requires c.lat == b.minLat || c.lat == b.maxLat
    requires c.lng == b.minLng || c.lng == b.maxLng
    ensures IsInBounds(c, b)
  {
  }

  /** There is no wrap across the antimeridian: a box whose west edge lies
      east of its east edge (or whose south edge lies north of its north
      edge) contains no city at all. */
  lemma InvertedBoxIsEmpty(c: City, b: Bounds)
    requires b.minLng > b.maxLng || b.minLat > b.maxLat
    ensures !IsInBounds(c, b)
  {
  }

  /** `outer` contains `inner` as a rectangle. */
  predicate Encloses(outer: Bounds, inner: Bounds) {
    outer.minLat <= inner.minLat && inner.maxLat <= outer.maxLat &&
    outer.minLng <= inner.minLng && inner.maxLng <= outer.maxLng
  }

  /** Enlarging the box never drops a city that was inside. */
  lemma EnlargingKeepsInside(c: City, inner: Bounds, outer: Bounds)
    requires Encloses(outer, inner) && IsInBounds(c, inner)
    ensures IsInBounds(c, outer)
  {
  }
}
