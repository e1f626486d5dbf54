/** The records of the static data file: the office block, the listed
    properties and the payload that carries both. Optional fields are
    `Option`s; `None` stands for a field that is missing or `null`. */
module Listing {
  import opened Text

  /** `details`: each count may be missing. */
  datatype Details = Details(dorms: Option<int>, baths: Option<int>, areaM2: Option<int>, parking: Option<int>)

  /** A `details` object with no fields, which is what `p.details || {}`
      substitutes for a missing one. */
  const NoDetails := Details(None, None, None, None)

  /** One listing. `priceClp` is read for sales and `priceClpMonth` for
      rentals. */
  datatype Property = Property(
    id: string,
    title: string,
    location: string,
    image: string,
    priceClp: Option<nat>,
    priceClpMonth: Option<nat>,
    details: Option<Details>,
    highlights: Option<seq<string>>)

  datatype Office = Office(
    brand: string,
    tagline: string,
    hours: string,
    address: string,
    phoneDisplay: string,
    email: string,
    whatsapp: string)

  /** The whole payload of the data file. */
  datatype Listings = Listings(office: Office, sales: seq<Property>, rentals: seq<Property>, updated: string)
}
