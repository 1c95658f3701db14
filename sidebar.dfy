/**
 * The favorites sidebar as a described view: a pure mapping from the
 * favorites list to the items `renderFavorites` puts in the list element.
 */
module Sidebar {
  import opened Listings
  import opened Favorites

  /** The placeholder text shown when there are no favorites. */
  const EmptyMessage: string := "No favorites yet."

  /** One `<li>` of the sidebar: the placeholder, or an entry with its "Remove" control tagged by id. */
  datatype SidebarItem =
    | Placeholder(text: string)
    | FavItem(pictureUrl: string, name: string, price: string, removeId: Id)

  /** One item per entry, in list order. */
  function Items(favs: seq<Entry>): (items: seq<SidebarItem>)
    ensures |items| == |favs|
    ensures forall i :: 0 <= i < |items| ==> items[i].FavItem? && items[i].removeId == favs[i].id
  {
    if favs == [] then []
    else [FavItem(favs[0].pictureUrl, favs[0].name, favs[0].price, favs[0].id)] + Items(favs[1..])
  }

  /** What `renderFavorites` shows for the list `favs`. */
  function SidebarOf(favs: seq<Entry>): (items: seq<SidebarItem>)
    ensures items == [Placeholder(EmptyMessage)] <==> favs == []
    ensures |items| == if favs == [] then 1 else |favs|
  {
    if favs == [] then [Placeholder(EmptyMessage)] else Items(favs)
  }

  /** The entry a sidebar item displays (the placeholder displays none). */
  function EntriesShown(items: seq<SidebarItem>): seq<Entry> {
    if items == [] then []
    else match items[0] {
      case Placeholder(_) => EntriesShown(items[1..])
      case FavItem(pic, name, price, id) => [Entry(id, name, pic, price)] + EntriesShown(items[1..])
    }
  }

  /** The sidebar displays exactly the favorites list: every entry, every field, in order. */
  lemma {:induction false} ItemsShowAll(favs: seq<Entry>)
    ensures EntriesShown(Items(favs)) == favs
  {
    if favs != [] {
      ItemsShowAll(favs[1..]);
      assert Items(favs)[1..] == Items(favs[1..]);
    }
  }

  /**
   * The placeholder appears exactly when the list is empty, and then it is
   * the only item; otherwise the sidebar shows every entry, in list order.
   */
  lemma SidebarPlaceholderIffEmpty(favs: seq<Entry>)
    ensures (exists i :: 0 <= i < |SidebarOf(favs)| && SidebarOf(favs)[i].Placeholder?) <==> favs == []
    ensures favs == [] ==> SidebarOf(favs) == [Placeholder("No favorites yet.")]
    ensures favs != [] ==> |SidebarOf(favs)| == |favs| && EntriesShown(SidebarOf(favs)) == favs
  {
    if favs != [] {
      ItemsShowAll(favs);
    } else {
      assert SidebarOf(favs)[0].Placeholder?;
    }
  }

  /** Every "Remove" control the sidebar shows is tagged with an id that is in the list. */
  lemma SidebarRemoveIdsPresent(favs: seq<Entry>, i: nat)
    requires i < |SidebarOf(favs)| && SidebarOf(favs)[i].FavItem?
    ensures Contains(favs, SidebarOf(favs)[i].removeId)
    ensures FindIndex(favs, SidebarOf(favs)[i].removeId) <= i
  {
  }

  /** Removing the only favorite from the sidebar brings the placeholder back. */
  lemma RemoveOnlyShowsPlaceholder(favs: seq<Entry>)
    requires |favs| == 1
    ensures SidebarOf(Removed(favs, SidebarOf(favs)[0].removeId)) == [Placeholder(EmptyMessage)]
  {
  }
}
