/** The browser's vacation list page (follow, unfollow, filter buttons) and the admin page
    (two-click delete). Requests are represented by their outcome: `ok` says whether the
    server accepted the request. */
module VacationPages {
  import opened Wrappers
  import opened Models
  import opened Followers
  import opened VacationListing

  // ---------------------------------------------------------------------------
  // Following, as the list page shows it

  /** The list after a successful follow of `id`: that entry is followed and counts one more
      follower; every other entry is untouched. */
  function MarkFollowed(items: seq<VacationItem>, id: nat): (r: seq<VacationItem>)
    ensures |r| == |items|
    ensures forall i :: 0 <= i < |items| ==>
      if items[i].vacation.id == id
      then r[i] == items[i].(isFollowing := true, followersCount := items[i].followersCount + 1)
      else r[i] == items[i]
  {
    seq(|items|, i requires 0 <= i < |items| =>
      if items[i].vacation.id == id
      then items[i].(isFollowing := true, followersCount := items[i].followersCount + 1)
      else items[i])
  }

  /** The list after a successful unfollow of `id`: that entry is not followed and counts one
      follower fewer; every other entry is untouched. */
  function MarkUnfollowed(items: seq<VacationItem>, id: nat): (r: seq<VacationItem>)
    ensures |r| == |items|
    ensures forall i :: 0 <= i < |items| ==>
      if items[i].vacation.id == id
      then r[i] == items[i].(isFollowing := false, followersCount := items[i].followersCount - 1)
      else r[i] == items[i]
  {
    seq(|items|, i requires 0 <= i < |items| =>
      if items[i].vacation.id == id
      then items[i].(isFollowing := false, followersCount := items[i].followersCount - 1)
      else items[i])
  }

  /** Following an entry the caller did not follow and then unfollowing it restores the list. */
  lemma FollowThenUnfollowRestoresList(items: seq<VacationItem>, id: nat)
    requires forall i :: 0 <= i < |items| && items[i].vacation.id == id ==> !items[i].isFollowing
    ensures MarkUnfollowed(MarkFollowed(items, id), id) == items
  {
    var r := MarkUnfollowed(MarkFollowed(items, id), id);
    forall i | 0 <= i < |items| ensures r[i] == items[i] {
      if items[i].vacation.id == id {
        assert MarkFollowed(items, id)[i].vacation.id == id;
      }
    }
  }

  /** The entry the page shows after a successful follow is the entry the server would list
      once the follower row is stored. */
  lemma OptimisticFollowMatchesServer(v: Vacation, fs: seq<Follow>, user: nat)
    requires user != 0 && Follow(user, v.id) !in fs
    ensures var item := ToItem(v, fs, Some(user));
      item.(isFollowing := true, followersCount := item.followersCount + 1)
        == ToItem(v, fs + [Follow(user, v.id)], Some(user))
  {
    FollowerIdsAppend(fs, Follow(user, v.id), v.id);
    assert user !in FollowerIds(fs, v.id);
  }

  /** The entry the page shows after a successful unfollow is the entry the server would list
      once the follower row is deleted. */
  lemma OptimisticUnfollowMatchesServer(v: Vacation, fs: seq<Follow>, user: nat)
    requires user != 0 && Follow(user, v.id) in fs
    ensures var item := ToItem(v, fs, Some(user));
      item.(isFollowing := false, followersCount := item.followersCount - 1)
        == ToItem(v, RemovePair(fs, Follow(user, v.id)), Some(user))
  {
    var before := FollowerIds(fs, v.id);
    var after := FollowerIds(RemovePair(fs, Follow(user, v.id)), v.id);
    assert after == before - {user};
    assert user in before;
  }

  /** The filter after a click on the button for `selected`: a second click on the active
      filter clears it. */
  function NextFilter(current: string, selected: string): (next: string)
    ensures next == "" <==> current == selected || selected == ""
    ensures next != "" ==> next == selected
  {
    if current == selected then "" else selected
  }

  /** Clicking the same filter button twice, starting with no filter or that filter, leaves
      the filter as it was. */
  lemma FilterToggleTwiceRestores(current: string, selected: string)
    requires current == "" || current == selected
    ensures NextFilter(NextFilter(current, selected), selected) == current
  {
  }

  class VacationsPage {
    var vacations: seq<VacationItem>
    var currentPage: int
    var filter: string

    constructor (vacations: seq<VacationItem>)
      ensures this.vacations == vacations && currentPage == 1 && filter == ""
    {
      this.vacations := vacations;
      currentPage := 1;
      filter := "";
    }

    /** handleFollow: the list changes only when the request succeeds. */
    method HandleFollow(id: nat, ok: bool)
      modifies this`vacations
      ensures vacations == if ok then MarkFollowed(old(vacations), id) else old(vacations)
    {
      if ok {
        vacations := MarkFollowed(vacations, id);
      }
    }

    /** handleUnfollow: the list changes only when the request succeeds. */
    method HandleUnfollow(id: nat, ok: bool)
      modifies this`vacations
      ensures vacations == if ok then MarkUnfollowed(old(vacations), id) else old(vacations)
    {
      if ok {
        vacations := MarkUnfollowed(vacations, id);
      }
    }

    /** handleFilterChange: toggles the filter and goes back to the first page. */
    method HandleFilterChange(selected: string)
      modifies this`filter, this`currentPage
      ensures filter == NextFilter(old(filter), selected)
      ensures currentPage == 1
    {
      filter := NextFilter(filter, selected);
      currentPage := 1;
    }
  }

  // ---------------------------------------------------------------------------
  // The admin page

  /** The list without the entries of vacation `id`, in the same order. */
  function RemoveId(items: seq<VacationItem>, id: nat): (r: seq<VacationItem>)
    ensures forall x :: x in r <==> x in items && x.vacation.id != id
    ensures |r| <= |items|
    ensures (forall i :: 0 <= i < |items| ==> items[i].vacation.id != id) ==> r == items
    decreases |items|
  {
    if items == [] then []
    else
      var rest := RemoveId(items[1..], id);
      assert items == [items[0]] + items[1..];
      if items[0].vacation.id != id then [items[0]] + rest else rest
  }

  /** Removing an id from two lists joined is removing it from each, the first list's entries
      first: the relative order of the remaining entries is kept. */
  lemma {:induction false} RemoveIdAppend(a: seq<VacationItem>, b: seq<VacationItem>, id: nat)
    ensures RemoveId(a + b, id) == RemoveId(a, id) + RemoveId(b, id)
    decreases |a|
  {
    if a == [] {
      assert a + b == b;
    } else {
      assert (a + b)[0] == a[0];
      assert (a + b)[1..] == a[1..] + b;
      RemoveIdAppend(a[1..], b, id);
    }
  }

  /** A single entry stays exactly when it has another id. */
  lemma RemoveIdSingle(x: VacationItem, id: nat)
    ensures RemoveId([x], id) == if x.vacation.id != id then [x] else []
  {
    assert [x][1..] == [];
  }

  /** Removing an id twice removes nothing more. */
  lemma RemoveIdIdempotent(items: seq<VacationItem>, id: nat)
    ensures RemoveId(RemoveId(items, id), id) == RemoveId(items, id)
  {
    var r := RemoveId(items, id);
    forall i | 0 <= i < |r| ensures r[i].vacation.id != id {
      assert r[i] in r;
    }
  }

  class AdminPage {
    var vacations: seq<VacationItem>
    /** The id awaiting confirmation, if any. */
    var deleteConfirm: Option<nat>
    /** The delete requests sent, oldest first. */
    var requested: seq<nat>

    constructor (vacations: seq<VacationItem>)
      ensures this.vacations == vacations && deleteConfirm == None && requested == []
    {
      this.vacations := vacations;
      deleteConfirm := None;
      requested := [];
    }

    /** handleDelete: the first click on an id only asks for confirmation; a click on the id
        awaiting confirmation sends the delete, and on success drops that vacation from the
        list and closes the confirmation. A failed delete changes nothing on the page. */
    method HandleDelete(id: nat, ok: bool)
      modifies this
      ensures old(deleteConfirm) != Some(id) ==>
        deleteConfirm == Some(id) && vacations == old(vacations) && requested == old(requested)
      ensures old(deleteConfirm) == Some(id) ==> requested == old(requested) + [id]
      ensures old(deleteConfirm) == Some(id) && ok ==>
        vacations == RemoveId(old(vacations), id) && deleteConfirm == None
      ensures old(deleteConfirm) == Some(id) && !ok ==>
        vacations == old(vacations) && deleteConfirm == old(deleteConfirm)
    {
      if deleteConfirm != Some(id) {
        deleteConfirm := Some(id);
        return;
      }
      requested := requested + [id];
      if ok {
        vacations := RemoveId(vacations, id);
        deleteConfirm := None;
      }
    }

    /** The Cancel button of the confirmation. */
    method Cancel()
      modifies this`deleteConfirm
      ensures deleteConfirm == None
    {
      deleteConfirm := None;
    }
  }
}
