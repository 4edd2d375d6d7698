/** A cricket venue (model/Venue.java). */
module Venues {
  import JavaText

  /** A venue record; no code of the core calls its setters, so it is a value. */
  datatype Venue = Venue(name: string, city: string, capacity: int)

  /** Venue.equals: two venues are equal iff their names are equal. */
  predicate SameVenue(a: Venue, b: Venue)
  {
    a.name == b.name
  }

  /** Venue.hashCode: the hash of the name. */
  function VenueHash(v: Venue): int
  {
    JavaText.StringHash(v.name)
  }

  /** equals is an equivalence that ignores city and capacity. */
  lemma SameVenueIsEquivalence(a: Venue, b: Venue, c: Venue)
    ensures SameVenue(a, a)
    ensures SameVenue(a, b) ==> SameVenue(b, a)
    ensures SameVenue(a, b) && SameVenue(b, c) ==> SameVenue(a, c)
    ensures SameVenue(a, b) <==> SameVenue(a.(city := b.city, capacity := b.capacity), b)
  {
  }

  /** Equal venues have equal hash codes. */
  lemma EqualVenuesHashAlike(a: Venue, b: Venue)
    requires SameVenue(a, b)
    ensures VenueHash(a) == VenueHash(b)
  {
  }
}
