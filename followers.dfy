/** The followers table: rows (userId, vacationId) meaning "this user follows this vacation". */
module Followers {

  datatype Follow = Follow(userId: nat, vacationId: nat)

  /** No (userId, vacationId) pair occurs twice. */
  predicate NoDuplicates(fs: seq<Follow>) {
    forall i, j :: 0 <= i < j < |fs| ==> fs[i] != fs[j]
  }

  /** The distinct users following `vacationId` (what `COUNT(DISTINCT f.userId)` counts). */
  function FollowerIds(fs: seq<Follow>, vacationId: nat): (ids: set<nat>)
    ensures forall u :: u in ids <==> Follow(u, vacationId) in fs
    decreases |fs|
  {
    if fs == [] then {}
    else
      assert fs == [fs[0]] + fs[1..];
      (if fs[0].vacationId == vacationId then {fs[0].userId} else {}) + FollowerIds(fs[1..], vacationId)
  }

  /** A new row adds its user to the followers of its vacation and to no other. */
  lemma FollowerIdsAppend(fs: seq<Follow>, f: Follow, vacationId: nat)
    ensures FollowerIds(fs + [f], vacationId)
            == FollowerIds(fs, vacationId) + (if f.vacationId == vacationId then {f.userId} else {})
  {
    forall u ensures Follow(u, vacationId) in fs + [f] <==> Follow(u, vacationId) in fs || Follow(u, vacationId) == f {
    }
  }

  /** The number of rows for `vacationId` (what `COUNT(f.userId)` counts). */
  function RowCount(fs: seq<Follow>, vacationId: nat): (n: nat)
    ensures n <= |fs|
    ensures n == 0 <==> forall i :: 0 <= i < |fs| ==> fs[i].vacationId != vacationId
    decreases |fs|
  {
    if fs == [] then 0
    else
      assert forall i :: 0 < i < |fs| ==> fs[i] == fs[1..][i - 1];
      (if fs[0].vacationId == vacationId then 1 else 0) + RowCount(fs[1..], vacationId)
  }

  /** Without duplicate rows, counting rows and counting distinct followers agree. */
  lemma {:induction false} DistinctFollowersMatchRows(fs: seq<Follow>, vacationId: nat)
    requires NoDuplicates(fs)
    ensures |FollowerIds(fs, vacationId)| == RowCount(fs, vacationId)
    decreases |fs|
  {
    if fs != [] {
      assert NoDuplicates(fs[1..]) by {
        forall i, j | 0 <= i < j < |fs[1..]| ensures fs[1..][i] != fs[1..][j] {
          assert fs[1..][i] == fs[i + 1] && fs[1..][j] == fs[j + 1];
        }
      }
      DistinctFollowersMatchRows(fs[1..], vacationId);
      assert fs[0] !in fs[1..];
    }
  }

  /** The rows `keep` accepts (a `DELETE ... WHERE` removes the others), each as often as
      the table holds it. */
  function Keep(fs: seq<Follow>, keep: Follow -> bool): (r: seq<Follow>)
    ensures forall f :: f in r <==> f in fs && keep(f)
    ensures |r| <= |fs|
    ensures |r| == |fs| <==> forall i :: 0 <= i < |fs| ==> keep(fs[i])
    ensures NoDuplicates(fs) ==> NoDuplicates(r)
    decreases |fs|
  {
    if fs == [] then []
    else
      var rest := Keep(fs[1..], keep);
      assert fs == [fs[0]] + fs[1..];
      assert forall i :: 0 < i < |fs| ==> fs[i] == fs[1..][i - 1];
      assert NoDuplicates(fs) ==> fs[0] !in fs[1..];
      if keep(fs[0]) then [fs[0]] + rest else rest
  }

  /** A kept row occurs in the result exactly as often as in the table; a rejected one not at all. */
  lemma {:induction false} KeepCounts(fs: seq<Follow>, keep: Follow -> bool, f: Follow)
    ensures multiset(Keep(fs, keep))[f] == if keep(f) then multiset(fs)[f] else 0
    decreases |fs|
  {
    if fs != [] {
      KeepCounts(fs[1..], keep, f);
      assert fs == [fs[0]] + fs[1..];
      assert multiset(fs) == multiset{fs[0]} + multiset(fs[1..]);
      var rest := Keep(fs[1..], keep);
      if keep(fs[0]) {
        assert Keep(fs, keep) == [fs[0]] + rest;
        assert multiset(Keep(fs, keep)) == multiset{fs[0]} + multiset(rest);
      } else {
        assert Keep(fs, keep) == rest;
      }
    }
  }

  /** `DELETE FROM followers WHERE userId = ? AND vacationId = ?` */
  function RemovePair(fs: seq<Follow>, pair: Follow): seq<Follow> {
    Keep(fs, (f: Follow) => f != pair)
  }

  /** `DELETE FROM followers WHERE vacationId = ?` */
  function RemoveVacation(fs: seq<Follow>, vacationId: nat): seq<Follow> {
    Keep(fs, (f: Follow) => f.vacationId != vacationId)
  }

  /** A filter that keeps every row leaves the table as it is. */
  lemma {:induction false} KeepAll(fs: seq<Follow>, keep: Follow -> bool)
    requires forall i :: 0 <= i < |fs| ==> keep(fs[i])
    ensures Keep(fs, keep) == fs
    decreases |fs|
  {
    if fs != [] {
      KeepAll(fs[1..], keep);
      assert [fs[0]] + fs[1..] == fs;
    }
  }

  lemma {:induction false} KeepAppendRejected(fs: seq<Follow>, keep: Follow -> bool, x: Follow)
    requires !keep(x)
    requires forall i :: 0 <= i < |fs| ==> keep(fs[i])
    ensures Keep(fs + [x], keep) == fs
    decreases |fs|
  {
    if fs == [] {
      assert [x][1..] == [];
    } else {
      assert (fs + [x])[1..] == fs[1..] + [x];
      KeepAppendRejected(fs[1..], keep, x);
      assert [fs[0]] + fs[1..] == fs;
    }
  }

  /** Inserting a new pair and then deleting it gives back the table. */
  lemma FollowThenUnfollowRestores(fs: seq<Follow>, pair: Follow)
    requires pair !in fs
    ensures RemovePair(fs + [pair], pair) == fs
  {
    KeepAppendRejected(fs, (f: Follow) => f != pair, pair);
  }
}
