# Airbnb listings page: favorites store and selection rules

A model of the page script `script.js` of a single-page listing browser. The
script fetches a dataset of property listings once, shows the first 50 as
cards, and keeps a list of favorite listings that the user toggles with a
heart button on each card and prunes with a "Remove" control in a sidebar.
The list lives in memory as an ordered array of `{id, name, picture_url,
price}` entries, is written whole to the browser's local storage under the
key `airbnbFavorites` after every change, and is re-rendered into the
sidebar.

Modules, one per concern of the script:

- `Wrappers` (wrappers.dfy): `Option`.
- `Listings` (listings.dfy): the listing record and the pure selection rules
  of the grid: the first-50 truncation, the three-name amenities preview and
  the `||` rating fallback. The outcome of `JSON.parse` on the amenities text
  is an input (`AmenitiesField`).
- `Favorites` (favorites.dfy): the stored entry, find-by-id (`findIndex`),
  membership (`some`), and the two mutations as functions of the old list
  (`Toggled`, `Removed`), with the lemmas on uniqueness, membership flipping,
  toggle parity and order.
- `Sidebar` (sidebar.dfy): the sidebar as a described view of the list, with
  its placeholder rule and a round trip from view back to entries.
- `Store` (store.dfy): class `FavoritesStore`, the in-place list with its
  storage copy (`stored`), a ghost count of storage writes, and the current
  sidebar. `Valid()` says a page reload would restore exactly the in-memory
  list and that the sidebar shows it; every method keeps it.
- `Grid` (grid.dfy): cards, the single fetch's outcome turned into the grid
  container's content (cards or an error line), and class `ListingsGrid`
  with the heart click handler.

Two behaviours of the script are easy to miss and the model keeps both. The
rating fallback is a truthiness test, so a rating of 0, `false` or an empty
string shows "New" just like a missing one. An amenities field that parses
to valid JSON other than an array is not treated like a parse failure: the
`slice`/`join` calls that then throw sit outside the `try`, so the exception
replaces the whole grid with the error line.

## Model

| member | source | states |
|---|---|---|
| `Listings.FirstListings` | script.js:19 | the grid gets the first min(50, n) listings, in dataset order; an empty dataset gives none |
| `Listings.AmenitiesPreview` | script.js:37-44 | at most 3 names, taken from the front of the parsed array (all of them when fewer than 3); a missing field or a parse failure gives no names; only a value that parses to a non-array makes the card fail |
| `Listings.RatingText` | script.js:67 | the label is "New" exactly when the rating is falsy (missing, null, false, 0 or ""), and the rating itself otherwise |
| `Favorites.FindIndex` | script.js:88 | the result is -1 exactly when no entry has the id, and otherwise the first position holding it |
| `Favorites.Contains` | script.js:47 | true exactly when some entry has the id, and exactly when find-by-id does not give -1 |
| `Favorites.Project` | script.js:91-96 | the stored entry keeps exactly the listing's `id`, `name`, `picture_url` and `price` |
| `Favorites.Toggled` | script.js:87-99 | a toggle shortens the list by one when the id is present and lengthens it by one when absent; the entries involved are pinned by `ToggleAbsentAppends`, `TogglePresentRemoves` and `RemovedPresentDropsFirst`, membership by `ToggleFlips`, `ToggleKeepsOthers` and `ToggleCount` |
| `Favorites.Removed` | script.js:132-134 | the guarded removal shortens the list by one exactly when the id is present; which entry goes is pinned by `RemovedPresentDropsFirst` and `RemovedAbsentUnchanged`, membership by `RemovedKeepsUnique` and `RemovedKeepsOthers` |
| `Favorites.RemoveAt` | script.js:98 | splicing out one position shortens the list by one and keeps every other entry in its relative order |
| `Favorites.ToggleAbsentAppends` | script.js:88-96 | toggling an absent id appends exactly `{id, name, picture_url, price}` of the listing at the end, earlier entries unchanged |
| `Favorites.TogglePresentRemoves` | script.js:88-98 | toggling a present id removes one entry, the same way the sidebar removal does |
| `Favorites.RemovedPresentDropsFirst` | script.js:132-134 | removal by a present id drops exactly the first entry with that id and keeps the rest in order |
| `Favorites.RemovedAbsentUnchanged` | script.js:132-133 | removal by an absent id leaves the list as it was |
| `Favorites.RemoveAtKeepsUnique` | script.js:134 | on a list without duplicate ids, a splice keeps it so and leaves the spliced entry's id absent |
| `Favorites.RemoveAtKeepsOthers` | script.js:134 | a splice leaves the membership of every other id as it was |
| `Favorites.RemovedKeepsUnique` | script.js:132-134 | on a list without duplicate ids, the sidebar removal keeps ids unique and leaves the id absent |
| `Favorites.RemovedKeepsOthers` | script.js:132-134 | the sidebar removal leaves every other id's membership alone, on any list |
| `Favorites.ToggleFlips` | script.js:87-99 | on a list without duplicate ids, a toggle keeps ids unique and flips the listing's membership |
| `Favorites.ToggleKeepsOthers` | script.js:87-99 | a toggle leaves every other id's membership alone, on any list, duplicates included |
| `Favorites.CountPositiveIffContains` | script.js:47 | an id is a member exactly when at least one entry carries it |
| `Favorites.CountAppend` | script.js:91-96 | the append adds one entry for the listing's id and none for any other id |
| `Favorites.CountRemoveAt` | script.js:98 | the splice takes away exactly one entry for the spliced entry's id |
| `Favorites.ToggleCount` | script.js:87-99 | with at most one entry for the listing, a toggle turns its count from 0 to 1 or from 1 to 0 and flips its membership |
| `Favorites.ToggleTwiceAbsentRestores` | script.js:87-99 | toggling an absent listing twice restores the original list exactly |
| `Favorites.ToggleParity` | script.js:73-79 | after n toggles of one listing that starts with at most one entry, its membership is flipped exactly when n is odd (the count stays at most one) |
| `Favorites.ApplyAllKeepsUnique` | script.js:87-139 | no sequence of toggles and sidebar removals creates two entries with the same id |
| `Sidebar.Items` | script.js:118-128 | one sidebar item per entry, in list order, each "Remove" control tagged with its entry's id |
| `Sidebar.ItemsShowAll` | script.js:118-128 | the sidebar items display every entry with all four fields, in order: reading them back gives the list |
| `Sidebar.SidebarOf` | script.js:110-118 | the sidebar is the lone placeholder exactly for the empty list, and otherwise has one item per entry; its items are read back by `ItemsShowAll` and `SidebarPlaceholderIffEmpty` |
| `Sidebar.SidebarPlaceholderIffEmpty` | script.js:113-118 | the single placeholder "No favorites yet." appears exactly when the list is empty |
| `Sidebar.SidebarRemoveIdsPresent` | script.js:126-133 | every "Remove" control the sidebar shows carries an id that is in the list, so the handler's guard always passes |
| `Sidebar.RemoveOnlyShowsPlaceholder` | script.js:113-136 | removing the only favorite through the sidebar brings back the placeholder |
| `Store.Restore` | script.js:4 | a page load starts from the stored list, or from the empty list when nothing is stored |
| `Store.FavoritesStore.constructor` | script.js:4-7 | the store starts from storage, nothing written yet, and the sidebar already rendered |
| `Store.FavoritesStore.UpdateStorage` | script.js:105-107 | storage receives the whole in-memory list in one write |
| `Store.FavoritesStore.RenderFavorites` | script.js:110-118 | the sidebar is rebuilt from the current list |
| `Store.FavoritesStore.IsFavorite` | script.js:47 | true exactly when some entry carries the id |
| `Store.FavoritesStore.Toggle` | script.js:87-102 | the list becomes the toggled list, storage then holds the whole new list (one write), the sidebar shows it, every other id keeps its membership, and on a list without duplicate ids uniqueness is kept and membership flips |
| `Store.FavoritesStore.RemoveById` | script.js:130-139 | with a present id the entry is removed, persisted and re-rendered; with an absent id nothing changes and nothing is written; every other id keeps its membership |
| `Store.FavoritesStore.ClickRemove` | script.js:126-139 | a click on a shown "Remove" control always removes one entry and writes storage once |
| `Grid.HeartFor` | script.js:47-48 | the heart is filled exactly when some favorite carries the listing's id |
| `Grid.CardFor` | script.js:37-67 | a card fails exactly when the amenities parse to a non-array; otherwise it shows the listing, its amenities preview, its rating label, and a filled heart exactly when the listing is a favorite |
| `Grid.Cards` | script.js:31-83 | one card per listing in input order, or failure exactly when some listing's amenities parse to a non-array |
| `Grid.Decimal` | script.js:15 | the status is printed as one or more decimal digits with no leading zero |
| `Grid.DecimalRoundTrip` | script.js:15 | the printed status reads back as the status |
| `Grid.Loaded` | script.js:10-25 | cards are shown exactly when the status is 2xx, the body parses to an array and no shown listing's amenities throw; they are then the cards of the first min(50, n) listings in order, hearts from the given favorites; otherwise the container shows "Error loading listings: " followed by the message: the network error's, "HTTP error! status: " and the number, the body parse error's, the non-array body's, or the amenities type error's |
| `Grid.EmptyDatasetEmptyGrid` | script.js:19-20 | with any 2xx status, an empty dataset renders an empty grid rather than an error |
| `Grid.ListingsGrid.ShowListings` | script.js:10-25 | the grid container gets the content the fetch outcome determines, with hearts from the favorites at that moment |
| `Grid.ListingsGrid.ClickHeart` | script.js:73-80 | the card's listing is toggled in the store (persisted once), only that card's heart is repainted, and it shows the flipped membership |

## Left out

- Network I/O and asynchrony of `fetch`/`response.json()` (script.js:10-17): their outcome is the input `FetchOutcome`; error messages produced by the JavaScript engine are input strings.
- `JSON.parse` of the amenities text (script.js:39): its outcome is the input `AmenitiesField`.
- Serialisation of the list with `JSON.stringify`/`JSON.parse` (script.js:4, 106): the stored value is modelled as the list itself, so the round trip through text is not modelled.
- A stored value that is not valid JSON or is a truthy non-array (script.js:4): the script then throws or misbehaves at start-up; `Store.Restore` takes only an absent/falsy value or a list.
- Other tabs or windows of the same origin writing `airbnbFavorites`: the script never re-reads storage or listens for `storage` events, so another tab's write would break `Valid()`'s "a reload restores the in-memory list"; the model has a single writer.
- A dataset array whose elements are not listing objects (for instance `null`, on which reading `amenities` throws inside the loop): `Listing` always has every field.
- A failing `localStorage.setItem` (quota exceeded): the in-memory change is not rolled back; storage writes always succeed here.
- `join(' • ')` of the preview names (script.js:44), and all HTML templating, `innerHTML`, image `onerror` fallbacks, `stopPropagation` and listener wiring (script.js:29-83, 111-142): presentation only; cards and sidebar items carry the data they display.
- How a rating prints: `RatingLabel.Score` carries the rating value itself. Ratings that are JSON arrays or objects (always truthy) are not modelled.
- `console.error` (script.js:22): logging.
- `updateListingHeart` (script.js:145-158): it does nothing, so after a sidebar removal the grid keeps its old hearts; `ListingsGrid` is not touched by `FavoritesStore.RemoveById`, which reproduces this.
- `Favorites.ToggleFlips` and `Store.FavoritesStore.Toggle` state the membership flip only for a list without duplicate ids: with duplicates (possible only from a hand-edited store) removing the first one leaves the id present.
