/**
 * The favorites list as a value: the entries the store keeps, the
 * find-by-id and membership tests, and the two mutations (toggle and
 * guarded removal) as functions of the old list. The store class applies
 * these in place.
 */
module Favorites {
  import opened Listings

  /** The projection of a listing that the store keeps and persists. */
  datatype Entry = Entry(id: Id, name: string, pictureUrl: string, price: string)

  /** `{id, name, picture_url, price}` taken from a listing. */
  function Project(l: Listing): (e: Entry)
    ensures e.id == l.id && e.name == l.name && e.pictureUrl == l.pictureUrl && e.price == l.price
  {
    Entry(l.id, l.name, l.pictureUrl, l.price)
  }

  /** No two entries share an id. */
  predicate Unique(favs: seq<Entry>) {
    forall i, j :: 0 <= i < j < |favs| ==> favs[i].id != favs[j].id
  }

  /** `favorites.findIndex(fav => fav.id === id)`: the first position holding `id`, or -1. */
  function FindIndex(favs: seq<Entry>, id: Id): (k: int)
    ensures -1 <= k < |favs|
    ensures k == -1 <==> forall i :: 0 <= i < |favs| ==> favs[i].id != id
    ensures k != -1 ==> favs[k].id == id && forall i :: 0 <= i < k ==> favs[i].id != id
  {
    if favs == [] then -1
    else if favs[0].id == id then 0
    else
      var k := FindIndex(favs[1..], id);
      if k == -1 then -1 else k + 1
  }

  /** `favorites.some(fav => fav.id === id)`; agrees with `FindIndex`. */
  function Contains(favs: seq<Entry>, id: Id): (found: bool)
    ensures found <==> exists i :: 0 <= i < |favs| && favs[i].id == id
    ensures found <==> FindIndex(favs, id) != -1
  {
    if favs == [] then false
    else favs[0].id == id || Contains(favs[1..], id)
  }

  /** `favorites.splice(k, 1)`. */
  function RemoveAt(favs: seq<Entry>, k: nat): (r: seq<Entry>)
    requires k < |favs|
    ensures |r| == |favs| - 1
    ensures forall i :: 0 <= i < k ==> r[i] == favs[i]
    ensures forall i :: k <= i < |r| ==> r[i] == favs[i + 1]
  {
    favs[..k] + favs[k + 1..]
  }

  /** The list after `toggleFavorite(l)`: remove the first entry with `l.id`, or append its projection. */
  function Toggled(favs: seq<Entry>, l: Listing): (r: seq<Entry>)
    ensures |r| == if Contains(favs, l.id) then |favs| - 1 else |favs| + 1
  {
    var k := FindIndex(favs, l.id);
    if k == -1 then favs + [Project(l)] else RemoveAt(favs, k)
  }

  /** The list after the sidebar's remove handler for `id`: unchanged when `id` is absent. */
  function Removed(favs: seq<Entry>, id: Id): (r: seq<Entry>)
    ensures |r| == if Contains(favs, id) then |favs| - 1 else |favs|
  {
    var k := FindIndex(favs, id);
    if k == -1 then favs else RemoveAt(favs, k)
  }

  /** Toggling an absent listing appends exactly its projection and keeps every earlier entry. */
  lemma ToggleAbsentAppends(favs: seq<Entry>, l: Listing)
    requires !Contains(favs, l.id)
    ensures var r := Toggled(favs, l);
      |r| == |favs| + 1 && r[..|favs|] == favs &&
      r[|favs|] == Entry(l.id, l.name, l.pictureUrl, l.price)
  {
  }

  /**
   * Removing by a present id drops exactly the first entry with that id;
   * the others keep their relative order.
   */
  lemma RemovedPresentDropsFirst(favs: seq<Entry>, id: Id)
    requires Contains(favs, id)
    ensures exists k :: (0 <= k < |favs| && favs[k].id == id &&
      (forall i :: 0 <= i < k ==> favs[i].id != id) &&
      Removed(favs, id) == favs[..k] + favs[k + 1..])
  {
  }

  /** Toggling a present listing is the same as removing it by id. */
  lemma TogglePresentRemoves(favs: seq<Entry>, l: Listing)
    requires Contains(favs, l.id)
    ensures Toggled(favs, l) == Removed(favs, l.id)
    ensures |Toggled(favs, l)| == |favs| - 1
  {
  }

  /** Removing by an absent id changes nothing. */
  lemma RemovedAbsentUnchanged(favs: seq<Entry>, id: Id)
    requires !Contains(favs, id)
    ensures Removed(favs, id) == favs
  {
  }

  /** Splicing out one entry keeps the list free of duplicate ids and loses that entry's id. */
  lemma RemoveAtKeepsUnique(favs: seq<Entry>, k: nat)
    requires k < |favs| && Unique(favs)
    ensures Unique(RemoveAt(favs, k))
    ensures !Contains(RemoveAt(favs, k), favs[k].id)
  {
  }

  /** Splicing out one entry leaves the membership of every other id as it was. */
  lemma RemoveAtKeepsOthers(favs: seq<Entry>, k: nat, id: Id)
    requires k < |favs| && id != favs[k].id
    ensures Contains(RemoveAt(favs, k), id) == Contains(favs, id)
  {
    var r := RemoveAt(favs, k);
    if Contains(favs, id) {
      var i :| 0 <= i < |favs| && favs[i].id == id;
      if i < k { assert r[i] == favs[i]; } else { assert r[i - 1] == favs[i]; }
    }
    if Contains(r, id) {
      var i :| 0 <= i < |r| && r[i].id == id;
      if i < k { assert r[i] == favs[i]; } else { assert r[i] == favs[i + 1]; }
    }
  }

  /** The sidebar removal keeps ids unique and leaves `id` absent. */
  lemma RemovedKeepsUnique(favs: seq<Entry>, id: Id)
    requires Unique(favs)
    ensures Unique(Removed(favs, id))
    ensures !Contains(Removed(favs, id), id)
  {
    var k := FindIndex(favs, id);
    if k != -1 {
      RemoveAtKeepsUnique(favs, k);
    }
  }

  /** The sidebar removal leaves the membership of every other id as it was, duplicates or not. */
  lemma RemovedKeepsOthers(favs: seq<Entry>, id: Id, other: Id)
    requires other != id
    ensures Contains(Removed(favs, id), other) == Contains(favs, other)
  {
    var k := FindIndex(favs, id);
    if k != -1 {
      RemoveAtKeepsOthers(favs, k, other);
    }
  }

  /** A toggle keeps ids unique and flips the membership of `l.id`. */
  lemma ToggleFlips(favs: seq<Entry>, l: Listing)
    requires Unique(favs)
    ensures Unique(Toggled(favs, l))
    ensures Contains(Toggled(favs, l), l.id) == !Contains(favs, l.id)
  {
    if Contains(favs, l.id) {
      RemovedKeepsUnique(favs, l.id);
    } else {
      var r := Toggled(favs, l);
      assert r == favs + [Project(l)];
      forall i, j | 0 <= i < j < |r| ensures r[i].id != r[j].id {
        if j == |favs| {
          assert r[i] == favs[i];
        }
      }
      assert r[|favs|].id == l.id;
    }
  }

  /** A toggle leaves the membership of every other id as it was, duplicates or not. */
  lemma ToggleKeepsOthers(favs: seq<Entry>, l: Listing, other: Id)
    requires other != l.id
    ensures Contains(Toggled(favs, l), other) == Contains(favs, other)
  {
    if Contains(favs, l.id) {
      RemoveAtKeepsOthers(favs, FindIndex(favs, l.id), other);
    } else {
      var r := Toggled(favs, l);
      assert r == favs + [Project(l)];
      if Contains(r, other) {
        var i :| 0 <= i < |r| && r[i].id == other;
        assert i < |favs| && favs[i] == r[i];
      }
      if Contains(favs, other) {
        var i :| 0 <= i < |favs| && favs[i].id == other;
        assert r[i] == favs[i];
      }
    }
  }

  /** Toggling an absent listing twice gives back exactly the original list. */
  lemma ToggleTwiceAbsentRestores(favs: seq<Entry>, l: Listing)
    requires !Contains(favs, l.id)
    ensures Toggled(Toggled(favs, l), l) == favs
  {
    var r := favs + [Project(l)];
    assert Toggled(favs, l) == r;
    assert FindIndex(r, l.id) == |favs| by {
      assert r[|favs|].id == l.id;
      forall i | 0 <= i < |favs| ensures r[i].id != l.id {
        assert r[i] == favs[i];
      }
    }
    assert RemoveAt(r, |favs|) == r[..|favs|] == favs;
  }

  /** `n` is odd, counted one toggle at a time. */
  predicate Odd(n: nat) {
    if n == 0 then false else !Odd(n - 1)
  }

  /** `Odd` is the usual remainder test. */
  lemma {:induction false} OddIsRemainder(n: nat)
    ensures Odd(n) == (n % 2 == 1)
  {
    if n > 0 {
      OddIsRemainder(n - 1);
    }
  }

  /** How many entries carry `id`. */
  function Count(favs: seq<Entry>, id: Id): nat {
    if favs == [] then 0 else (if favs[0].id == id then 1 else 0) + Count(favs[1..], id)
  }

  /** An id is in the list exactly when it is carried by at least one entry. */
  lemma {:induction false} CountPositiveIffContains(favs: seq<Entry>, id: Id)
    ensures Count(favs, id) > 0 <==> Contains(favs, id)
  {
    if favs != [] {
      CountPositiveIffContains(favs[1..], id);
    }
  }

  /** Appending one entry adds one to the count of its id only. */
  lemma {:induction false} CountAppend(favs: seq<Entry>, e: Entry, id: Id)
    ensures Count(favs + [e], id) == Count(favs, id) + (if e.id == id then 1 else 0)
  {
    if favs != [] {
      CountAppend(favs[1..], e, id);
      assert (favs + [e])[1..] == favs[1..] + [e];
    }
  }

  /** Splicing out position `k` subtracts one from the count of that entry's id. */
  lemma {:induction false} CountRemoveAt(favs: seq<Entry>, k: nat)
    requires k < |favs|
    ensures Count(RemoveAt(favs, k), favs[k].id) == Count(favs, favs[k].id) - 1
  {
    if k > 0 {
      CountRemoveAt(favs[1..], k - 1);
      assert RemoveAt(favs, k) == [favs[0]] + RemoveAt(favs[1..], k - 1);
    } else {
      assert RemoveAt(favs, 0) == favs[1..];
    }
  }

  /**
   * With at most one entry for the listing, a toggle turns its count from
   * 0 to 1 or from 1 to 0, and so flips its membership.
   */
  lemma ToggleCount(favs: seq<Entry>, l: Listing)
    requires Count(favs, l.id) <= 1
    ensures Count(Toggled(favs, l), l.id) == 1 - Count(favs, l.id)
    ensures Contains(Toggled(favs, l), l.id) == !Contains(favs, l.id)
  {
    CountPositiveIffContains(favs, l.id);
    CountPositiveIffContains(Toggled(favs, l), l.id);
    var k := FindIndex(favs, l.id);
    if k == -1 {
      CountAppend(favs, Project(l), l.id);
    } else {
      CountRemoveAt(favs, k);
    }
  }

  /** `step` applied `n` times, starting from `x`. */
  function Iterate<T>(step: T -> T, x: T, n: nat): T {
    if n == 0 then x else step(Iterate(step, x, n - 1))
  }

  /**
   * When a step keeps `inv` and negates `flag` wherever `inv` holds, then
   * `n` steps from a state satisfying `inv` negate `flag` exactly when `n` is odd.
   */
  lemma {:induction false} IterateFlips<T>(step: T -> T, flag: T -> bool, inv: T -> bool, x: T, n: nat)
    requires forall y :: inv(y) ==> inv(step(y)) && flag(step(y)) == !flag(y)
    requires inv(x)
    ensures inv(Iterate(step, x, n))
    ensures flag(Iterate(step, x, n)) == (flag(x) != Odd(n))
  {
    if n > 0 {
      IterateFlips(step, flag, inv, x, n - 1);
    }
  }

  /** The list after toggling the same listing `n` times. */
  function ToggledTimes(favs: seq<Entry>, l: Listing, n: nat): seq<Entry> {
    Iterate(s => Toggled(s, l), favs, n)
  }

  /**
   * Toggle parity: after an odd number of toggles the listing's membership
   * is the opposite of where it started, after an even number it is back.
   * It needs only that the listing has at most one entry to begin with.
   */
  lemma ToggleParity(favs: seq<Entry>, l: Listing, n: nat)
    requires Count(favs, l.id) <= 1
    ensures Count(ToggledTimes(favs, l, n), l.id) <= 1
    ensures Contains(ToggledTimes(favs, l, n), l.id) == (Contains(favs, l.id) != (n % 2 == 1))
  {
    var step := s => Toggled(s, l);
    var flag := s => Contains(s, l.id);
    var inv := s => Count(s, l.id) <= 1;
    forall y | inv(y) ensures inv(step(y)) && flag(step(y)) == !flag(y) {
      ToggleCount(y, l);
    }
    IterateFlips(step, flag, inv, favs, n);
    OddIsRemainder(n);
  }

  /** A user action that changes the list: a grid heart click or a sidebar "Remove" click. */
  datatype Action = ToggleListing(listing: Listing) | RemoveEntry(id: Id)

  function Apply(favs: seq<Entry>, a: Action): seq<Entry> {
    match a
    case ToggleListing(l) => Toggled(favs, l)
    case RemoveEntry(id) => Removed(favs, id)
  }

  function ApplyAll(favs: seq<Entry>, actions: seq<Action>): seq<Entry>
    decreases |actions|
  {
    if actions == [] then favs else ApplyAll(Apply(favs, actions[0]), actions[1..])
  }

  /** No sequence of toggles and removals ever introduces two entries with the same id. */
  lemma {:induction false} ApplyAllKeepsUnique(favs: seq<Entry>, actions: seq<Action>)
    requires Unique(favs)
    ensures Unique(ApplyAll(favs, actions))
    decreases |actions|
  {
    if actions != [] {
      match actions[0] {
        case ToggleListing(l) => ToggleFlips(favs, l);
        case RemoveEntry(id) => RemovedKeepsUnique(favs, id);
      }
      ApplyAllKeepsUnique(Apply(favs, actions[0]), actions[1..]);
    }
  }
}
