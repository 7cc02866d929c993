/**
  The `create_missing_profiles` management command: one profile for every
  user that has none, copied from the user, and a report of how many were
  made.
*/
module ProfileBackfill {
  import opened Support
  import opened Models
  import Slugs

  /** `userprofile__isnull=True` against the profiles as they were when the queryset ran. */
  function Lacks(byUser: map<int, UserProfile>): AuthUser -> bool
  {
    (u: AuthUser) => u.id !in byUser
  }

  /** The success line written to standard output. */
  function Report(count: nat): string
  {
    "Successfully created " + Slugs.NatToString(count) + " user profiles"
  }

  /** User primary keys are unique. */
  predicate DistinctIds(users: seq<AuthUser>)
  {
    forall i, j :: 0 <= i < j < |users| ==> users[i].id != users[j].id
  }

  /**
    `Command.handle`: `users` is the user table in queryset order. The
    users without a profile are selected first; each of them then gets
    `NewProfile(user)` and is counted. Existing profiles are left alone.
  */
  method CreateMissingProfiles(users: seq<AuthUser>, profiles: ProfileTable) returns (count: nat, report: string)
    requires DistinctIds(users)
    modifies profiles
    ensures forall u :: u in users ==> u.id in profiles.byUser
    ensures forall id :: id in profiles.byUser <==>
      id in old(profiles.byUser) || exists i :: 0 <= i < |users| && users[i].id == id
    ensures forall id :: id in old(profiles.byUser) ==> profiles.byUser[id] == old(profiles.byUser)[id]
    ensures forall u :: u in users && u.id !in old(profiles.byUser) ==> profiles.byUser[u.id] == NewProfile(u)
    ensures count == |Filter(users, Lacks(old(profiles.byUser)))|
    ensures report == Report(count)
  {
    var before := profiles.byUser;
    var lacking := Filter(users, Lacks(before));
    FilterDistinct(users, Lacks(before));
    count := 0;
    var i := 0;
    while i < |lacking|
      invariant 0 <= i <= |lacking| && count == i
      invariant forall id :: id in profiles.byUser <==> id in before || exists j :: 0 <= j < i && lacking[j].id == id
      invariant forall id :: id in before ==> profiles.byUser[id] == before[id]
      invariant forall j :: 0 <= j < i ==> profiles.byUser[lacking[j].id] == NewProfile(lacking[j])
    {
      var user := lacking[i];
      assert user in lacking;
      var _ := profiles.Create(user);
      count := count + 1;
      i := i + 1;
    }
    forall id | id in profiles.byUser && id !in before ensures exists k :: 0 <= k < |users| && users[k].id == id {
      var j :| 0 <= j < |lacking| && lacking[j].id == id;
      assert lacking[j] in users;
    }
    forall u | u in users && u.id !in before ensures u.id in profiles.byUser && profiles.byUser[u.id] == NewProfile(u) {
      assert u in lacking;
      var j :| 0 <= j < |lacking| && lacking[j] == u;
    }
    report := Report(count);
  }

  /** Filtering keeps the user keys unique. */
  lemma {:induction false} FilterDistinct(users: seq<AuthUser>, p: AuthUser -> bool)
    requires DistinctIds(users)
    ensures DistinctIds(Filter(users, p))
    decreases |users|
  {
    if users != [] {
      var init, last := users[..|users| - 1], users[|users| - 1];
      assert DistinctIds(init);
      FilterDistinct(init, p);
      if p(last) {
        var f := Filter(init, p);
        assert Filter(users, p) == f + [last];
        forall i | 0 <= i < |f| ensures f[i].id != last.id {
          assert f[i] in init;
        }
      }
    }
  }

  /** Once every user has a profile, the command finds no one and reports 0. */
  lemma SecondRunCreatesNone(users: seq<AuthUser>, byUser: map<int, UserProfile>)
    requires forall u :: u in users ==> u.id in byUser
    ensures |Filter(users, Lacks(byUser))| == 0
    ensures Report(|Filter(users, Lacks(byUser))|) == "Successfully created 0 user profiles"
  {
    assert forall i :: 0 <= i < |users| ==> users[i] in users;
    FilterNone(users, Lacks(byUser));
    assert Slugs.NatToString(0) == "0";
  }

  /** The users without a profile. */
  function LackingSet(users: seq<AuthUser>, byUser: map<int, UserProfile>): set<AuthUser>
  {
    set u | u in users && u.id !in byUser
  }

  /** The count is the number of distinct users without a profile. */
  lemma {:induction false} CountIsLacking(users: seq<AuthUser>, byUser: map<int, UserProfile>)
    requires DistinctIds(users)
    ensures |Filter(users, Lacks(byUser))| == |LackingSet(users, byUser)|
    decreases |users|
  {
    if users != [] {
      var init := users[..|users| - 1];
      var last := users[|users| - 1];
      assert DistinctIds(init);
      CountIsLacking(init, byUser);
      assert last !in init by {
        assert forall i :: 0 <= i < |init| ==> init[i].id != last.id;
      }
      LackingSnoc(users, byUser);
    }
  }

  /** The lacking set grows by the last user exactly when that user lacks a profile. */
  lemma LackingSnoc(users: seq<AuthUser>, byUser: map<int, UserProfile>)
    requires users != []
    ensures var init, last := users[..|users| - 1], users[|users| - 1];
      LackingSet(users, byUser) == LackingSet(init, byUser) + (if last.id !in byUser then {last} else {})
  {
    var init, last := users[..|users| - 1], users[|users| - 1];
    assert users == init + [last];
  }
}
