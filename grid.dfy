/**
 * The listings grid: the outcome of the one dataset fetch, the cards
 * `renderListings` builds from the first 50 listings, and the heart
 * button's click handler, which toggles the store and repaints only its
 * own icon.
 */
module Grid {
  import opened Wrappers
  import opened Listings
  import opened Favorites
  import Store

  /** The heart icon of a card: filled ('❤️') or outline ('🤍'). */
  datatype Heart = Filled | Outline

  /** The icon for a listing: filled exactly when its id is among the favorites. */
  function HeartFor(favs: seq<Entry>, id: Id): (h: Heart)
    ensures h == Filled <==> exists i :: 0 <= i < |favs| && favs[i].id == id
  {
    if Contains(favs, id) then Filled else Outline
  }

  /** The data a card shows; it keeps the listing its heart button toggles. */
  datatype Card = Card(listing: Listing, amenities: seq<string>, rating: RatingLabel, heart: Heart)

  /** One card, or `None` when building it throws (amenities that are JSON but not an array). */
  function CardFor(l: Listing, favs: seq<Entry>): (card: Option<Card>)
    ensures card.None? <==> l.amenities.JsonOther?
    ensures card.Some? ==>
      card.value.listing == l &&
      AmenitiesPreview(l.amenities) == Some(card.value.amenities) &&
      card.value.rating == RatingText(l.rating) &&
      (card.value.heart == Filled <==> Contains(favs, l.id))
  {
    match AmenitiesPreview(l.amenities)
    case None => None
    case Some(names) => Some(Card(l, names, RatingText(l.rating), HeartFor(favs, l.id)))
  }

  /**
   * `listings.forEach(...)`: one card per listing in input order, or
   * `None` when some listing's card throws (the exception leaves the loop).
   */
  function Cards(ls: seq<Listing>, favs: seq<Entry>): (cards: Option<seq<Card>>)
    ensures cards.None? <==> exists i :: 0 <= i < |ls| && ls[i].amenities.JsonOther?
    ensures cards.Some? ==> (|cards.value| == |ls| &&
      forall i :: 0 <= i < |ls| ==> CardFor(ls[i], favs) == Some(cards.value[i]))
  {
    if ls == [] then Some([])
    else match CardFor(ls[0], favs) {
      case None => None
      case Some(c) =>
        match Cards(ls[1..], favs) {
          case None => None
          case Some(rest) => Some([c] + rest)
        }
    }
  }

  /** The status line of a failed load is this prefix followed by the error's message. */
  const ErrorPrefix: string := "Error loading listings: "

  /** The message of the error thrown for a non-success HTTP status. */
  const HttpErrorPrefix: string := "HTTP error! status: "

  /** The decimal digits of `n`, as a template literal prints a status code. */
  function Decimal(n: nat): (s: string)
    ensures |s| >= 1 && forall i :: 0 <= i < |s| ==> '0' <= s[i] <= '9'
    ensures |s| > 1 ==> s[0] != '0'
  {
    if n < 10 then ["0123456789"[n]] else Decimal(n / 10) + ["0123456789"[n % 10]]
  }

  /** The number a string of decimal digits denotes. */
  function DigitsValue(s: string): nat
    requires forall i :: 0 <= i < |s| ==> '0' <= s[i] <= '9'
  {
    if s == [] then 0 else 10 * DigitsValue(s[..|s| - 1]) + (s[|s| - 1] as int - '0' as int)
  }

  /** The status printed in the error message reads back as the status itself. */
  lemma {:induction false} DecimalRoundTrip(n: nat)
    ensures DigitsValue(Decimal(n)) == n
  {
    if n >= 10 {
      DecimalRoundTrip(n / 10);
      var s := Decimal(n);
      var d := n % 10;
      assert s == Decimal(n / 10) + ["0123456789"[d]];
      assert s[..|s| - 1] == Decimal(n / 10);
      assert s[|s| - 1] as int - '0' as int == d;
      assert DigitsValue(s) == 10 * (n / 10) + d;
    } else {
      assert Decimal(n) == ["0123456789"[n]];
    }
  }

  /** The parsed body of the dataset response. */
  datatype Body =
    | Unparsable(message: string)        // `response.json()` rejects, with this message
    | NotArray(message: string)          // JSON that is not an array: `slice` or `forEach` throws this message
    | ListingArray(all: seq<Listing>)

  /** What the single `fetch` of the dataset yields. */
  datatype FetchOutcome =
    | NetworkError(message: string)       // `fetch` itself rejects, with this message
    | Response(status: nat, body: Body)

  /** `response.ok`: a status in the range 200-299. */
  predicate StatusOk(status: nat) {
    200 <= status <= 299
  }

  /** What the listings container holds. */
  datatype GridContent =
    | Loading                      // the page's initial content, before the fetch settles
    | Shown(cards: seq<Card>)
    | Failed(text: string)

  /**
   * `fetchListings`: the container's content once the fetch settles, given
   * the favorites at that moment. `typeError` is the engine's message for
   * calling `slice`/`join` on a parsed amenities value that is not an array.
   */
  function Loaded(outcome: FetchOutcome, favs: seq<Entry>, typeError: string): (content: GridContent)
    ensures content != Loading
    ensures content.Shown? <==>
      outcome.Response? && StatusOk(outcome.status) && outcome.body.ListingArray? &&
      forall i :: 0 <= i < |FirstListings(outcome.body.all)| ==> !FirstListings(outcome.body.all)[i].amenities.JsonOther?
    ensures content.Shown? ==>
      var all := outcome.body.all;
      |content.cards| == (if |all| < MaxListings then |all| else MaxListings) &&
      forall i :: 0 <= i < |content.cards| ==> CardFor(all[i], favs) == Some(content.cards[i])
    ensures content.Failed? ==> ErrorPrefix <= content.text
    ensures outcome.NetworkError? ==> content == Failed(ErrorPrefix + outcome.message)
    ensures outcome.Response? && !StatusOk(outcome.status) ==>
      content == Failed(ErrorPrefix + HttpErrorPrefix + Decimal(outcome.status))
    ensures outcome.Response? && StatusOk(outcome.status) && outcome.body.Unparsable? ==>
      content == Failed(ErrorPrefix + outcome.body.message)
    ensures outcome.Response? && StatusOk(outcome.status) && outcome.body.NotArray? ==>
      content == Failed(ErrorPrefix + outcome.body.message)
    ensures outcome.Response? && StatusOk(outcome.status) && outcome.body.ListingArray? && !content.Shown? ==>
      content == Failed(ErrorPrefix + typeError)
  {
    match outcome
    case NetworkError(m) => Failed(ErrorPrefix + m)
    case Response(status, body) =>
      if !StatusOk(status) then Failed(ErrorPrefix + HttpErrorPrefix + Decimal(status))
      else match body {
        case Unparsable(m) => Failed(ErrorPrefix + m)
        case NotArray(m) => Failed(ErrorPrefix + m)
        case ListingArray(all) =>
          match Cards(FirstListings(all), favs) {
            case None => Failed(ErrorPrefix + typeError)
            case Some(cards) => Shown(cards)
          }
      }
  }

  /** A successfully parsed empty dataset gives an empty grid, not an error. */
  lemma EmptyDatasetEmptyGrid(status: nat, favs: seq<Entry>, typeError: string)
    requires StatusOk(status)
    ensures Loaded(Response(status, ListingArray([])), favs, typeError) == Shown([])
  {
  }

  class ListingsGrid {
    var content: GridContent

    /** The page before the fetch has settled. */
    constructor ()
      ensures content == Loading
    {
      content := Loading;
    }

    /** `fetchListings` followed by `renderListings`. */
    method ShowListings(store: Store.FavoritesStore, outcome: FetchOutcome, typeError: string)
      modifies this
      ensures content == Loaded(outcome, store.favorites, typeError)
    {
      content := Loaded(outcome, store.favorites, typeError);
    }

    /**
     * The heart button of the `i`-th card: toggle that card's listing in
     * the store, then repaint this one button from the new membership.
     * No other card changes, even one for the same listing.
     */
    method ClickHeart(store: Store.FavoritesStore, i: nat)
      requires store.Valid()
      requires content.Shown? && i < |content.cards|
      modifies this, store
      ensures store.Valid()
      ensures var l := old(content.cards[i].listing);
        store.favorites == Toggled(old(store.favorites), l) &&
        store.stored == Some(store.favorites) && store.writes == old(store.writes) + 1 &&
        content == Shown(old(content.cards)[i := old(content.cards[i]).(heart := HeartFor(store.favorites, l.id))])
      ensures old(Unique(store.favorites)) ==>
        content.cards[i].heart == (if old(Contains(store.favorites, content.cards[i].listing.id)) then Outline else Filled)
    {
      var card := content.cards[i];
      store.Toggle(card.listing);
      var isFav := store.IsFavorite(card.listing.id);
      var heart := if isFav then Filled else Outline;
      content := Shown(content.cards[i := card.(heart := heart)]);
    }
  }
}
