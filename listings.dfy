/**
 * Listings as the dataset delivers them, and the pure selection rules the
 * listing grid applies to them: the first-50 truncation, the amenities
 * preview and the rating fallback.
 */
module Listings {
  import opened Wrappers

  /** Listing identity; compared with JavaScript's `===` on numbers. */
  type Id = int

  /**
   * What `JSON.parse(listing.amenities || '[]')` makes of a listing's
   * amenities field. The parser itself is not modelled, only its outcome.
   */
  datatype AmenitiesField =
    | Falsy                          // missing, null or "": replaced by the text "[]"
    | NotJson                        // JSON.parse throws; the catch substitutes []
    | JsonArray(items: seq<string>)  // an array, each element as `join` renders it
    | JsonOther                      // valid JSON that is not an array: `slice`/`join` throw

  /** A `review_scores_rating` value, with the cases JavaScript truthiness separates. */
  datatype Rating = Missing | Null | Bool(b: bool) | Number(value: real) | Text(text: string)

  datatype Listing = Listing(
    id: Id,
    name: string,
    pictureUrl: string,
    hostThumbnailUrl: string,
    hostName: string,
    amenities: AmenitiesField,
    price: string,
    rating: Rating)

  /** How many listings of the dataset the grid shows. */
  const MaxListings: nat := 50

  /** How many amenity names a card previews. */
  const MaxAmenities: nat := 3

  /** `allListings.slice(0, 50)`: the first 50 listings, or all of them when there are fewer. */
  function FirstListings(all: seq<Listing>): (shown: seq<Listing>)
    ensures |shown| == if |all| < MaxListings then |all| else MaxListings
    ensures shown == all[..|shown|]
    ensures all == [] ==> shown == []
  {
    if |all| <= MaxListings then all else all[..MaxListings]
  }

  /**
   * The amenity names a card shows: at most three, from the front of the
   * parsed array. A missing field or a parse failure gives no names; a
   * field that parses to something other than an array makes the card
   * throw, which is `None` here.
   */
  function AmenitiesPreview(field: AmenitiesField): (preview: Option<seq<string>>)
    ensures preview.None? <==> field.JsonOther?
    ensures preview.Some? ==> |preview.value| <= MaxAmenities
    ensures field.Falsy? || field.NotJson? ==> preview == Some([])
    ensures field.JsonArray? ==>
      preview.Some? && |preview.value| <= |field.items| &&
      preview.value == field.items[..|preview.value|] &&
      (|preview.value| < MaxAmenities ==> preview.value == field.items)
  {
    match field
    case Falsy => Some([])
    case NotJson => Some([])
    case JsonArray(items) => Some(if |items| <= MaxAmenities then items else items[..MaxAmenities])
    case JsonOther => None
  }

  /** JavaScript truthiness of a rating value: missing, null, false, 0 and "" are falsy. */
  predicate Truthy(r: Rating) {
    match r
    case Missing => false
    case Null => false
    case Bool(b) => b
    case Number(v) => v != 0.0
    case Text(t) => t != ""
  }

  /** What a card's rating slot shows: the rating itself, or the literal "New" (`New`). */
  datatype RatingLabel = Score(rating: Rating) | New

  /** `review_scores_rating || 'New'`. */
  function RatingText(r: Rating): (text: RatingLabel)
    ensures text.New? <==> !Truthy(r)
    ensures text.Score? ==> text.rating == r
  {
    if Truthy(r) then Score(r) else New
  }
}
