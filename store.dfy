/**
 * The favorites store: the page's `favorites` array, mutated in place by
 * the grid's heart toggle and the sidebar's "Remove" handler, mirrored
 * whole into local storage after every mutation, and re-rendered into the
 * sidebar.
 */
module Store {
  import opened Wrappers
  import opened Listings
  import opened Favorites
  import opened Sidebar

  /** The local storage key the list is written under. */
  const StorageKey: string := "airbnbFavorites"

  /**
   * `JSON.parse(localStorage.getItem(key)) || []`: the list a page load
   * starts from. `None` stands for an absent key (or any stored value that
   * parses to a falsy one).
   */
  function Restore(saved: Option<seq<Entry>>): (favs: seq<Entry>)
    ensures saved.None? ==> favs == []
    ensures saved.Some? ==> favs == saved.value
  {
    saved.GetOr([])
  }

  class FavoritesStore {
    /** The in-memory list, in insertion order. */
    var favorites: seq<Entry>
    /** The list as last written under `StorageKey`; `None` until the first write of a fresh browser. */
    var stored: Option<seq<Entry>>
    /** How many times the list has been written to storage. */
    ghost var writes: nat
    /** The items the sidebar currently shows. */
    var sidebar: seq<SidebarItem>

    /** A reload would restore exactly the in-memory list, and the sidebar shows it. */
    ghost predicate Valid()
      reads this
    {
      Restore(stored) == favorites && sidebar == SidebarOf(favorites)
    }

    /** Page start: load the list from storage and render the sidebar once. */
    constructor (saved: Option<seq<Entry>>)
      ensures Valid()
      ensures favorites == Restore(saved) && stored == saved && writes == 0
    {
      favorites := Restore(saved);
      stored := saved;
      writes := 0;
      sidebar := [];
      new;
      RenderFavorites();
    }

    /** `updateFavoritesStorage`: writes the whole list, never a part of it. */
    method UpdateStorage()
      modifies this`stored, this`writes
      ensures stored == Some(favorites) && writes == old(writes) + 1
    {
      stored := Some(favorites);
      writes := writes + 1;
    }

    /** `renderFavorites`: the sidebar is rebuilt from the current list. */
    method RenderFavorites()
      modifies this`sidebar
      ensures sidebar == SidebarOf(favorites)
    {
      if |favorites| == 0 {
        sidebar := [Placeholder(EmptyMessage)];
        return;
      }
      sidebar := Items(favorites);
    }

    /** `favorites.some(fav => fav.id === id)`: whether a listing's heart is filled. */
    method IsFavorite(id: Id) returns (found: bool)
      ensures found <==> exists i :: 0 <= i < |favorites| && favorites[i].id == id
    {
      found := Contains(favorites, id);
    }

    /**
     * `toggleFavorite`: append the listing's projection when its id is
     * absent, otherwise splice out the first entry with that id; then
     * persist the whole list and re-render the sidebar.
     */
    method Toggle(listing: Listing)
      requires Valid()
      modifies this
      ensures Valid()
      ensures favorites == Toggled(old(favorites), listing)
      ensures stored == Some(favorites) && writes == old(writes) + 1
      ensures old(Unique(favorites)) ==> Unique(favorites)
      ensures old(Unique(favorites)) ==> Contains(favorites, listing.id) == !old(Contains(favorites, listing.id))
      ensures forall other :: other != listing.id ==> Contains(favorites, other) == old(Contains(favorites, other))
    {
      if Unique(favorites) {
        ToggleFlips(favorites, listing);
      }
      forall other | other != listing.id
        ensures Contains(Toggled(favorites, listing), other) == Contains(favorites, other)
      {
        ToggleKeepsOthers(favorites, listing, other);
      }
      var index := FindIndex(favorites, listing.id);
      if index == -1 {
        favorites := favorites + [Project(listing)];
      } else {
        favorites := favorites[..index] + favorites[index + 1..];
      }
      UpdateStorage();
      RenderFavorites();
    }

    /**
     * The sidebar's "Remove" handler: when `id` is in the list, splice it
     * out, persist and re-render; otherwise do nothing at all.
     */
    method RemoveById(id: Id)
      requires Valid()
      modifies this
      ensures Valid()
      ensures favorites == Removed(old(favorites), id)
      ensures old(Contains(favorites, id)) ==> stored == Some(favorites) && writes == old(writes) + 1
      ensures !old(Contains(favorites, id)) ==>
        favorites == old(favorites) && stored == old(stored) && writes == old(writes) && sidebar == old(sidebar)
      ensures old(Unique(favorites)) ==> Unique(favorites) && !Contains(favorites, id)
      ensures forall other :: other != id ==> Contains(favorites, other) == old(Contains(favorites, other))
    {
      if Unique(favorites) {
        RemovedKeepsUnique(favorites, id);
      }
      forall other | other != id
        ensures Contains(Removed(favorites, id), other) == Contains(favorites, other)
      {
        RemovedKeepsOthers(favorites, id, other);
      }
      var index := FindIndex(favorites, id);
      if index != -1 {
        favorites := favorites[..index] + favorites[index + 1..];
        UpdateStorage();
        RenderFavorites();
        // updateListingHeart(id) does nothing: the grid keeps its hearts
      }
    }

    /**
     * A click on the "Remove" control of the `i`-th sidebar item. The item's
     * id is always in the list, so the click always removes and persists.
     */
    method ClickRemove(i: nat)
      requires Valid()
      requires i < |sidebar| && sidebar[i].FavItem?
      modifies this
      ensures Valid()
      ensures favorites == Removed(old(favorites), old(sidebar[i].removeId))
      ensures |favorites| == |old(favorites)| - 1
      ensures stored == Some(favorites) && writes == old(writes) + 1
    {
      var id := sidebar[i].removeId;
      SidebarRemoveIdsPresent(favorites, i);
      RemoveById(id);
    }
  }
}
