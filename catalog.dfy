/** Entities of the facility finder and the medical-products store.
    Every record is an immutable value; the only field that is derived at runtime
    is a facility's optional `distance`, attached when the user's position is known. */
module Catalog {

  datatype Option<+T> = None | Some(value: T)

  /** A medical department offered by one facility. `category` is a free-form grouping tag. */
  datatype Specialty = Specialty(
    id: int,
    name: string,
    category: string,
    description: string,
    availableDoctors: int,
    icon: string)

  datatype FacilityKind = HospitalKind | ClinicKind | DiagnosticKind

  /** A facility of the static catalog; `distance` (kilometres from the user) is absent in the catalog. */
  datatype Hospital = Hospital(
    id: int,
    name: string,
    kind: FacilityKind,
    address: string,
    distance: Option<real>,
    rating: real,
    reviews: int,
    services: seq<string>,
    specialties: seq<Specialty>,
    isOpen: bool,
    phone: string,
    email: string,
    website: string,
    operatingHours: string,
    lat: real,
    lng: real,
    image: string)

  /** A store item; `originalPrice` is the optional pre-discount price. */
  datatype Product = Product(
    id: int,
    name: string,
    category: string,
    price: real,
    originalPrice: Option<real>,
    description: string,
    features: seq<string>,
    image: string,
    inStock: bool,
    rating: real,
    reviews: int)

  /** A latitude/longitude pair in degrees (the user's position or a facility's). */
  datatype Coordinate = Coordinate(lat: real, lng: real)

  /** The fixed position of a facility. */
  function Position(h: Hospital): (c: Coordinate) {
    Coordinate(h.lat, h.lng)
  }
}
