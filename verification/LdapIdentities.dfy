/** Joining LDAP accounts with LDAP groups (identity-mapper/src/identity_mapper/_lookup_identities_in_ldap.py). */
module LdapIdentities {
  import opened IdentitySync
  import opened Sorting
  import opened Wrappers

  datatype Account = Account(uid: Option<string>, uidNumber: Option<nat>, gidNumber: Option<nat>)

  datatype Group = Group(cn: Option<string>, gidNumber: Option<nat>, memberUid: seq<string>)

  /** A value that Python takes as true: present, not empty, not zero. */
  predicate IsText(value: Option<string>) {
    value.Some? && value.value != ""
  }

  predicate IsNumber(value: Option<nat>) {
    value.Some? && value.value != 0
  }

  predicate IsUser(a: Account) {
    IsText(a.uid) && IsNumber(a.uidNumber) && IsNumber(a.gidNumber)
  }

  predicate IsGroup(g: Group) {
    IsText(g.cn) && IsNumber(g.gidNumber)
  }

  datatype User = User(uid: nat, name: string, gid: nat)

  function UserOf(a: Account): User
    requires IsUser(a)
  {
    User(a.uidNumber.value, a.uid.value, a.gidNumber.value)
  }

  // ---------------------------------------------------------------- the join

  function Without(s: seq<nat>, x: nat): seq<nat> {
    if s == [] then []
    else Without(s[..|s| - 1], x) + if s[|s| - 1] == x then [] else [s[|s| - 1]]
  }

  /** The group's ID, once for every time the name is listed. */
  function Listings(names: seq<string>, name: string, gid: nat): seq<nat> {
    if names == [] then []
    else Listings(names[..|names| - 1], name, gid) + if names[|names| - 1] == name then [gid] else []
  }

  /** The IDs of the groups that list a user, in the order of the groups. */
  function GroupsOf(groups: seq<Group>, name: string): seq<nat> {
    if groups == [] then []
    else
      var last := groups[|groups| - 1];
      GroupsOf(groups[..|groups| - 1], name)
      + if IsGroup(last) then Listings(last.memberUid, name, last.gidNumber.value) else []
  }

  function IdentityOf(user: User, groups: seq<Group>): Identity {
    Identity(user.uid, user.gid, Sort(Without(GroupsOf(groups, user.name), user.gid)))
  }

  /** The users among the accounts, in order. */
  function Users(accounts: seq<Account>): seq<User> {
    if accounts == [] then []
    else
      var last := accounts[|accounts| - 1];
      Users(accounts[..|accounts| - 1]) + if IsUser(last) then [UserOf(last)] else []
  }

  /** The identities of the users; the last user of a uid stays. */
  function IdentitiesOf(users: seq<User>, groups: seq<Group>): Identities {
    if users == [] then map[]
    else
      var last := users[|users| - 1];
      IdentitiesOf(users[..|users| - 1], groups)[last.uid := IdentityOf(last, groups)]
  }

  /** The comprehension that leaves out the primary group. */
  method WithoutPrimary(listed: seq<nat>, primary: nat) returns (supplementary: seq<nat>)
    ensures supplementary == Without(listed, primary)
  {
    supplementary := [];
    for j := 0 to |listed|
      invariant supplementary == Without(listed[..j], primary)
    {
      assert listed[..j + 1][..j] == listed[..j];
      if listed[j] != primary {
        supplementary := supplementary + [listed[j]];
      }
    }
    assert listed[..|listed|] == listed;
  }

  /** The loop over the members of one group. */
  method AddMembers(before: map<string, seq<nat>>, members: seq<string>, gid: nat)
    returns (userToGroups: map<string, seq<nat>>)
    ensures userToGroups.Keys == before.Keys
    ensures forall name :: name in before ==> userToGroups[name] == before[name] + Listings(members, name, gid)
  {
    userToGroups := before;
    for j := 0 to |members|
      invariant userToGroups.Keys == before.Keys
      invariant forall name :: name in before ==> userToGroups[name] == before[name] + Listings(members[..j], name, gid)
    {
      assert members[..j + 1][..j] == members[..j];
      if members[j] in userToGroups {
        userToGroups := userToGroups[members[j] := userToGroups[members[j]] + [gid]];
      }
    }
    assert members[..|members|] == members;
  }

  /** The loop over the groups that fills user_to_groups. */
  method CollectGroups(usernames: set<string>, groups: seq<Group>) returns (userToGroups: map<string, seq<nat>>)
    ensures userToGroups.Keys == usernames
    ensures forall name :: name in usernames ==> userToGroups[name] == GroupsOf(groups, name)
  {
    userToGroups := map name | name in usernames :: [];
    for i := 0 to |groups|
      invariant userToGroups.Keys == usernames
      invariant forall name :: name in usernames ==> userToGroups[name] == GroupsOf(groups[..i], name)
    {
      assert groups[..i + 1][..i] == groups[..i];
      if IsGroup(groups[i]) {
        userToGroups := AddMembers(userToGroups, groups[i].memberUid, groups[i].gidNumber.value);
      }
    }
    assert groups[..|groups|] == groups;
  }

  /** The loop over the accounts. */
  method CollectUsers(accounts: seq<Account>) returns (users: seq<User>, usernames: set<string>)
    ensures users == Users(accounts) && forall user :: user in users ==> user.name in usernames
  {
    users, usernames := [], {};
    for i := 0 to |accounts|
      invariant users == Users(accounts[..i])
      invariant forall user :: user in users ==> user.name in usernames
    {
      assert accounts[..i + 1][..i] == accounts[..i];
      if IsUser(accounts[i]) {
        users := users + [UserOf(accounts[i])];
        usernames := usernames + {accounts[i].uid.value};
      }
    }
    assert accounts[..|accounts|] == accounts;
  }

  lemma IdentitiesOneMore(users: seq<User>, i: nat, groups: seq<Group>)
    requires i < |users|
    ensures IdentitiesOf(users[..i + 1], groups)
         == IdentitiesOf(users[..i], groups)[users[i].uid := IdentityOf(users[i], groups)]
  {
    assert users[..i + 1][..i] == users[..i];
  }

  /** The loop over the users. */
  method BuildIdentities(users: seq<User>, ghost groups: seq<Group>, userToGroups: map<string, seq<nat>>)
    returns (out: Identities)
    requires forall user | user in users ::
               user.name in userToGroups && userToGroups[user.name] == GroupsOf(groups, user.name)
    ensures out == IdentitiesOf(users, groups)
  {
    out := map[];
    for i := 0 to |users|
      invariant out == IdentitiesOf(users[..i], groups)
    {
      IdentitiesOneMore(users, i, groups);
      var user := users[i];
      assert user in users;
      var supplementary := WithoutPrimary(userToGroups[user.name], user.gid);
      out := out[user.uid := Identity(user.uid, user.gid, Sort(supplementary))];
    }
    assert users[..|users|] == users;
  }

  /** lookup_identities_in_ldap. */
  method LookupIdentities(accounts: seq<Account>, groups: seq<Group>) returns (out: Identities)
    ensures out == IdentitiesOf(Users(accounts), groups)
  {
    var users, usernames := CollectUsers(accounts);
    if users == [] {
      return map[];
    }
    var userToGroups := CollectGroups(usernames, groups);
    out := BuildIdentities(users, groups, userToGroups);
  }

  // ---------------------------------------------------------------- what the join yields

  lemma {:induction false} WithoutCounts(s: seq<nat>, x: nat)
    ensures multiset(Without(s, x)) == multiset(s)[x := 0]
  {
    if s != [] {
      var front, last := s[..|s| - 1], s[|s| - 1];
      assert s == front + [last];
      WithoutCounts(front, x);
    }
  }

  lemma {:induction false} ListingsCount(names: seq<string>, name: string, gid: nat)
    ensures multiset(Listings(names, name, gid)) == multiset{}[gid := multiset(names)[name]]
  {
    if names != [] {
      var front, last := names[..|names| - 1], names[|names| - 1];
      assert names == front + [last];
      ListingsCount(front, name, gid);
    }
  }

  /** A group that lists a user, as often as it does. */
  function Grants(group: Group, name: string): multiset<nat> {
    if IsGroup(group) then multiset{}[group.gidNumber.value := multiset(group.memberUid)[name]] else multiset{}
  }

  lemma {:induction false} GroupsOfGrow(front: seq<Group>, last: Group, name: string)
    ensures multiset(GroupsOf(front + [last], name)) == multiset(GroupsOf(front, name)) + Grants(last, name)
  {
    assert (front + [last])[..|front|] == front;
    if IsGroup(last) {
      ListingsCount(last.memberUid, name, last.gidNumber.value);
    }
  }

  function Dropped(groups: seq<Group>, k: nat): seq<Group>
    requires k < |groups|
  {
    groups[..k] + groups[k + 1..]
  }

  lemma DroppedFromFront(front: seq<Group>, last: Group, k: nat)
    requires k < |front|
    ensures Dropped(front + [last], k) == Dropped(front, k) + [last]
  {
  }

  lemma {:induction false} GroupsOfRemoved(groups: seq<Group>, k: nat, name: string, gid: nat)
    requires k < |groups|
    ensures multiset(GroupsOf(groups, name))[gid]
            == multiset(GroupsOf(Dropped(groups, k), name))[gid] + Grants(groups[k], name)[gid]
  {
    var front, last := groups[..|groups| - 1], groups[|groups| - 1];
    assert groups == front + [last];
    GroupsOfGrow(front, last, name);
    if k < |front| {
      GroupsOfRemoved(front, k, name, gid);
      DroppedFromFront(front, last, k);
      GroupsOfGrow(Dropped(front, k), last, name);
    } else {
      assert Dropped(groups, k) == front;
    }
  }

  lemma {:induction false} Locate(groups: seq<Group>, group: Group) returns (k: nat)
    requires group in multiset(groups)
    ensures k < |groups| && groups[k] == group && multiset(Dropped(groups, k)) == multiset(groups) - multiset{group}
  {
    assert group in groups;
    k :| 0 <= k < |groups| && groups[k] == group;
    assert groups == groups[..k] + [groups[k]] + groups[k + 1..];
  }

  lemma {:induction false} GroupOrderIsIrrelevantToLists(a: seq<Group>, b: seq<Group>, name: string, gid: nat)
    requires multiset(a) == multiset(b)
    ensures multiset(GroupsOf(a, name))[gid] == multiset(GroupsOf(b, name))[gid]
  {
    assert |a| == |multiset(a)| && |b| == |multiset(b)|;
    if a != [] {
      var front, last := a[..|a| - 1], a[|a| - 1];
      assert a == front + [last];
      assert last in multiset(a);
      var k := Locate(b, last);
      GroupOrderIsIrrelevantToLists(front, Dropped(b, k), name, gid);
      GroupsOfGrow(front, last, name);
      GroupsOfRemoved(b, k, name, gid);
    }
  }

  /** The order in which LDAP returns the groups does not matter. */
  lemma {:induction false} GroupOrderIsIrrelevant(users: seq<User>, a: seq<Group>, b: seq<Group>)
    requires multiset(a) == multiset(b)
    ensures IdentitiesOf(users, a) == IdentitiesOf(users, b)
  {
    if users != [] {
      var last := users[|users| - 1];
      GroupOrderIsIrrelevant(users[..|users| - 1], a, b);
      var listedA, listedB := GroupsOf(a, last.name), GroupsOf(b, last.name);
      var countsA, countsB := multiset(listedA), multiset(listedB);
      forall gid: nat
        ensures countsA[gid] == countsB[gid]
      {
        GroupOrderIsIrrelevantToLists(a, b, last.name, gid);
      }
      assert countsA == countsB;
      WithoutCounts(listedA, last.gid);
      WithoutCounts(listedB, last.gid);
      SortedIsUnique(Sort(Without(listedA, last.gid)), Sort(Without(listedB, last.gid)));
    }
  }

  /** Some usable group of that ID lists the name. */
  predicate IsMember(groups: seq<Group>, name: string, gid: nat) {
    exists group :: group in groups && IsGroup(group) && group.gidNumber.value == gid && name in group.memberUid
  }

  lemma {:induction false} ListedExactly(groups: seq<Group>, name: string, gid: nat)
    ensures gid in GroupsOf(groups, name) <==> IsMember(groups, name, gid)
  {
    if groups != [] {
      var front, last := groups[..|groups| - 1], groups[|groups| - 1];
      assert groups == front + [last];
      ListedExactly(front, name, gid);
      if IsGroup(last) {
        ListingsCount(last.memberUid, name, last.gidNumber.value);
        var listings := Listings(last.memberUid, name, last.gidNumber.value);
        assert gid in listings <==> gid in multiset(listings);
        assert name in last.memberUid <==> multiset(last.memberUid)[name] > 0;
      }
    }
  }

  /** How often groups with a name and that ID, which is not zero, list the user. */
  function TimesListed(groups: seq<Group>, name: string, gid: nat): nat {
    if groups == [] then 0
    else
      var last := groups[|groups| - 1];
      TimesListed(groups[..|groups| - 1], name, gid)
      + if last.cn.Some? && last.cn.value != "" && last.gidNumber == Some(gid) && gid != 0
        then multiset(last.memberUid)[name] else 0
  }

  lemma {:induction false} ListedTimes(groups: seq<Group>, name: string, gid: nat)
    ensures multiset(GroupsOf(groups, name))[gid] == TimesListed(groups, name, gid)
  {
    if groups != [] {
      var front, last := groups[..|groups| - 1], groups[|groups| - 1];
      assert groups == front + [last];
      ListedTimes(front, name, gid);
      GroupsOfGrow(front, last, name);
    }
  }

  /** A group occurs among a user's supplementary groups as often as it lists the user; the primary one does not. */
  lemma {:induction false} SupplementaryTimes(user: User, groups: seq<Group>, gid: nat)
    ensures multiset(IdentityOf(user, groups).supplementalGroups)[gid]
         == if gid == user.gid then 0 else TimesListed(groups, user.name, gid)
  {
    WithoutCounts(GroupsOf(groups, user.name), user.gid);
    ListedTimes(groups, user.name, gid);
  }

  /** A user's supplementary groups are sorted, and are exactly the groups that list the user, without the primary
      one. */
  lemma {:induction false} SupplementaryExactly(user: User, groups: seq<Group>, gid: nat)
    ensures IsSorted(IdentityOf(user, groups).supplementalGroups)
    ensures gid in IdentityOf(user, groups).supplementalGroups <==> gid != user.gid && IsMember(groups, user.name, gid)
  {
    var listed := GroupsOf(groups, user.name);
    var sorted := Sort(Without(listed, user.gid));
    WithoutCounts(listed, user.gid);
    ListedExactly(groups, user.name, gid);
    assert gid in sorted <==> gid in multiset(sorted);
    assert gid in listed <==> gid in multiset(listed);
  }

  /** Some account has the user's three attributes, none of them empty or zero. */
  predicate IsOneOf(accounts: seq<Account>, user: User) {
    && user.name != "" && user.uid != 0 && user.gid != 0
    && Account(Some(user.name), Some(user.uid), Some(user.gid)) in accounts
  }

  /** The users are the accounts whose three attributes are present, not empty and not zero. */
  lemma {:induction false} UsersExactly(accounts: seq<Account>)
    ensures forall user :: user in Users(accounts) <==> IsOneOf(accounts, user)
  {
    if accounts != [] {
      var front, last := accounts[..|accounts| - 1], accounts[|accounts| - 1];
      assert accounts == front + [last];
      UsersExactly(front);
      forall user
        ensures user in Users(accounts) <==> IsOneOf(accounts, user)
      {
        assert user in Users(front) <==> IsOneOf(front, user);
      }
    }
  }

  /** The account makes a user of this uid number. */
  predicate IsUserOf(account: Account, uid: nat) {
    && account.uidNumber == Some(uid) && uid != 0
    && account.uid.Some? && account.uid.value != "" && account.gidNumber.Some? && account.gidNumber.value != 0
  }

  /** The last account of a uid number gets that number, its own primary group, and in ascending order every other
      group as often as usable groups of that ID list its name. */
  lemma {:induction false} AccountExactly(accounts: seq<Account>, groups: seq<Group>, i: nat, uid: nat, gid: nat)
    requires i < |accounts| && IsUserOf(accounts[i], uid)
    requires forall j :: i < j < |accounts| ==> !IsUserOf(accounts[j], uid)
    ensures var out := IdentitiesOf(Users(accounts), groups);
            && uid in out && out[uid].uid == uid && out[uid].gid == accounts[i].gidNumber.value
            && IsSorted(out[uid].supplementalGroups)
            && multiset(out[uid].supplementalGroups)[gid]
               == if gid == out[uid].gid then 0 else TimesListed(groups, accounts[i].uid.value, gid)
  {
    var users, user := Users(accounts), UserOf(accounts[i]);
    var k := LastOf(accounts, i, uid);
    LastUserDecides(users, groups);
    assert IdentitiesOf(users, groups)[users[k].uid] == IdentityOf(user, groups);
    SupplementaryTimes(user, groups, gid);
  }

  lemma {:induction false} LastOf(accounts: seq<Account>, i: nat, uid: nat) returns (k: nat)
    requires i < |accounts| && IsUserOf(accounts[i], uid)
    requires forall j :: i < j < |accounts| ==> !IsUserOf(accounts[j], uid)
    ensures k < |Users(accounts)| && IsUser(accounts[i]) && Users(accounts)[k] == UserOf(accounts[i])
    ensures forall j :: k < j < |Users(accounts)| ==> Users(accounts)[j].uid != uid
  {
    var front := accounts[..|accounts| - 1];
    if i == |front| {
      k := |Users(front)|;
    } else {
      assert !IsUserOf(accounts[|front|], uid);
      k := LastOf(front, i, uid);
    }
  }

  lemma {:induction false} UidsExactly(users: seq<User>, groups: seq<Group>, uid: nat)
    ensures uid in IdentitiesOf(users, groups) <==> exists user :: user in users && user.uid == uid
    ensures uid in IdentitiesOf(users, groups) ==> IdentitiesOf(users, groups)[uid].uid == uid
  {
    if users != [] {
      var front, last := users[..|users| - 1], users[|users| - 1];
      assert users == front + [last];
      UidsExactly(front, groups, uid);
    }
  }

  lemma {:induction false} LastIsKept(users: seq<User>, groups: seq<Group>, i: nat)
    requires i < |users| && forall j :: i < j < |users| ==> users[j].uid != users[i].uid
    ensures users[i].uid in IdentitiesOf(users, groups)
    ensures IdentitiesOf(users, groups)[users[i].uid] == IdentityOf(users[i], groups)
  {
    var front := users[..|users| - 1];
    if i < |front| {
      assert users[|front|].uid != users[i].uid;
      LastIsKept(front, groups, i);
    }
  }

  /** The last user of a uid decides its identity, and there is one for every uid of a user; so what is looked up
      is keyed as synchronising needs it. */
  lemma {:induction false} LastUserDecides(users: seq<User>, groups: seq<Group>)
    ensures WellKeyed(IdentitiesOf(users, groups))
    ensures forall uid :: uid in IdentitiesOf(users, groups) <==> exists user :: user in users && user.uid == uid
    ensures forall i | 0 <= i < |users| && (forall j :: i < j < |users| ==> users[j].uid != users[i].uid) ::
              IdentitiesOf(users, groups)[users[i].uid] == IdentityOf(users[i], groups)
  {
    forall uid: nat { UidsExactly(users, groups, uid); }
    forall i | 0 <= i < |users| && (forall j :: i < j < |users| ==> users[j].uid != users[i].uid) {
      LastIsKept(users, groups, i);
    }
  }
}
