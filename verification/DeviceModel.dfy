/** UpdateDeviceContext (mycscloud/device.go): how an arbitrary answer of the
    authDevice query changes the device context. */
module DeviceModel {
  import opened Outcomes

  // The answer.

  datatype Profile = Profile(userID: string, name: string, firstName: string, middleName: string, familyName: string)

  datatype DeviceUser = DeviceUser(user: Profile, isOwner: bool, status: string)

  datatype ManagedAnswer = ManagedAnswer(deviceID: string, users: seq<Profile>)

  datatype Answer =
    | Failed(error: string)
    | AuthDevice(accessType: string, deviceID: string, deviceName: string, deviceType: string,
                 managed: seq<ManagedAnswer>, users: seq<DeviceUser>)

  // The context.

  datatype Guest = Guest(userID: string, firstName: string, middleName: string, familyName: string, active: bool)

  datatype Device = Device(deviceID: string, name: string, kind: string)

  datatype Managed = Managed(deviceID: string, users: seq<Profile>)

  datatype Context = Context(device: Option<Device>, ownerUserID: Option<string>,
                             loggedInUserID: string, loggedInUserName: string,
                             guests: map<string, Guest>, managed: seq<Managed>)

  datatype Updated = Updated(ctx: Context, error: Option<string>)

  const NO_DEVICE := "device context has not been initialized with a device"
  const NO_OWNER := "device context has not been initialized with an owner"
  const INVALID := "invalid device context"
  const UNAUTHORIZED := "unauthorized"
  const PENDING := "unauthorized(pending)"

  // ---------------------------------------------------------------------
  // Guests.

  predicate BadOwner(ownerUserID: string, u: DeviceUser) {
    u.isOwner && u.user.userID != ownerUserID
  }

  /** The number of device users handled before an owner entry is refused. */
  function Accepted(ownerUserID: string, users: seq<DeviceUser>): (n: nat)
    ensures n <= |users|
    ensures forall i | 0 <= i < n :: !BadOwner(ownerUserID, users[i])
    ensures n < |users| ==> BadOwner(ownerUserID, users[n])
  {
    if users == [] || BadOwner(ownerUserID, users[0]) then 0 else 1 + Accepted(ownerUserID, users[1..])
  }

  predicate Matches(guests: map<string, Guest>, u: DeviceUser) {
    !u.isOwner && u.user.name in guests && guests[u.user.name].userID == u.user.userID
  }

  function Refreshed(g: Guest, u: DeviceUser): Guest {
    Guest(g.userID, u.user.firstName, u.user.middleName, u.user.familyName, u.status == "active")
  }

  /** The guest map rebuilt from the device users. */
  function MergeGuests(guests: map<string, Guest>, users: seq<DeviceUser>): map<string, Guest> {
    if users == [] then map[]
    else
      var u := users[|users| - 1];
      var merged := MergeGuests(guests, users[..|users| - 1]);
      if Matches(guests, u) then merged[u.user.name := Refreshed(guests[u.user.name], u)] else merged
  }

  /** Entry i is not the owner's and has the name and user ID of a guest. */
  predicate MatchAt(guests: map<string, Guest>, users: seq<DeviceUser>, i: int, name: string) {
    && 0 <= i < |users| && !users[i].isOwner
    && users[i].user.name == name && name in guests && guests[name].userID == users[i].user.userID
  }

  ghost predicate LastMatchAt(guests: map<string, Guest>, users: seq<DeviceUser>, i: int, name: string) {
    MatchAt(guests, users, i, name) && forall j | i < j < |users| :: !MatchAt(guests, users, j, name)
  }

  lemma LastMatchInit(guests: map<string, Guest>, users: seq<DeviceUser>, i: int, name: string)
    requires 0 <= i < |users| - 1 && !MatchAt(guests, users, |users| - 1, name)
    ensures LastMatchAt(guests, users, i, name) <==> LastMatchAt(guests, users[..|users| - 1], i, name)
  {
    var init := users[..|users| - 1];
    if LastMatchAt(guests, users, i, name) {
      forall j | i < j < |init| ensures !MatchAt(guests, init, j, name) { assert !MatchAt(guests, users, j, name); }
    }
    if LastMatchAt(guests, init, i, name) {
      forall j | i < j < |users| ensures !MatchAt(guests, users, j, name) {
        if j < |init| { assert !MatchAt(guests, init, j, name); }
      }
    }
  }

  /** The surviving guests are exactly the old ones that some non-owner entry
      names with their user ID; the last such entry gives the fields. */
  lemma {:induction false} GuestsExact(guests: map<string, Guest>, users: seq<DeviceUser>, name: string)
    ensures name in MergeGuests(guests, users) <==> exists i :: LastMatchAt(guests, users, i, name)
    ensures forall i | LastMatchAt(guests, users, i, name) ::
              name in guests
              && var u, g := users[i].user, MergeGuests(guests, users)[name];
              && g.userID == u.userID
              && g.firstName == u.firstName && g.middleName == u.middleName && g.familyName == u.familyName
              && (g.active <==> users[i].status == "active")
  {
    if users != [] {
      var n := |users| - 1;
      var init := users[..n];
      GuestsExact(guests, init, name);
      forall i | 0 <= i < n ensures MatchAt(guests, users, i, name) == MatchAt(guests, init, i, name) {}
      if MatchAt(guests, users, n, name) {
        assert LastMatchAt(guests, users, n, name);
        forall i | LastMatchAt(guests, users, i, name) ensures i == n {
          assert MatchAt(guests, users, n, name);
        }
      } else {
        forall i | 0 <= i < n
          ensures LastMatchAt(guests, users, i, name) <==> LastMatchAt(guests, init, i, name)
        {
          LastMatchInit(guests, users, i, name);
        }
        forall i | LastMatchAt(guests, users, i, name) ensures i < n {}
        if i :| LastMatchAt(guests, init, i, name) { assert LastMatchAt(guests, users, i, name); }
      }
    }
  }

  lemma {:induction false} SomeLastMatch(guests: map<string, Guest>, users: seq<DeviceUser>, i: int, name: string)
    requires MatchAt(guests, users, i, name)
    ensures exists j :: LastMatchAt(guests, users, j, name)
    decreases |users| - i
  {
    if j :| i < j < |users| && MatchAt(guests, users, j, name) {
      SomeLastMatch(guests, users, j, name);
    } else {
      assert LastMatchAt(guests, users, i, name);
    }
  }

  ghost predicate DistinctNames(users: seq<DeviceUser>) {
    forall i, j | 0 <= i < j < |users| && !users[i].isOwner && !users[j].isOwner ::
      users[i].user.name != users[j].user.name
  }

  /** With distinct names a guest's fields come from the one entry for it. */
  lemma GuestFromEntry(guests: map<string, Guest>, users: seq<DeviceUser>, u: DeviceUser)
    requires DistinctNames(users) && u in users && Matches(guests, u)
    ensures var merged := MergeGuests(guests, users);
            u.user.name in merged && merged[u.user.name] == Refreshed(guests[u.user.name], u)
  {
    var i :| 0 <= i < |users| && users[i] == u;
    assert LastMatchAt(guests, users, i, u.user.name);
    GuestsExact(guests, users, u.user.name);
  }

  lemma {:induction false} TwiceInSeq<T>(s: seq<T>, x: T) returns (i: nat, j: nat)
    requires multiset(s)[x] >= 2
    ensures i < j < |s| && s[i] == x && s[j] == x
  {
    var n := |s| - 1;
    assert s == s[..n] + [s[n]];
    if s[n] == x {
      assert multiset(s[..n])[x] >= 1 && x in s[..n];
      i :| 0 <= i < n && s[..n][i] == x;
      j := n;
    } else {
      i, j := TwiceInSeq(s[..n], x);
    }
  }

  lemma CountTwo<T>(s: seq<T>, i: nat, j: nat)
    requires i < j < |s| && s[i] == s[j]
    ensures multiset(s)[s[i]] >= 2
  {
    assert s == s[..j] + s[j..];
    assert s[i] in s[..j] && s[j] in s[j..];
  }

  lemma DistinctInAnyOrder(users: seq<DeviceUser>, users': seq<DeviceUser>)
    requires DistinctNames(users) && multiset(users) == multiset(users')
    ensures DistinctNames(users')
  {
    forall i, j | 0 <= i < j < |users'| && !users'[i].isOwner && !users'[j].isOwner
      ensures users'[i].user.name != users'[j].user.name
    {
      var u, v := users'[i], users'[j];
      if u == v {
        CountTwo(users', i, j);
        var k, l := TwiceInSeq(users, u);
      } else {
        assert u in multiset(users) && v in multiset(users);
        var k :| 0 <= k < |users| && users[k] == u;
        var l :| 0 <= l < |users| && users[l] == v;
      }
    }
  }

  lemma GuestsSubset(guests: map<string, Guest>, users: seq<DeviceUser>, users': seq<DeviceUser>)
    requires DistinctNames(users) && DistinctNames(users') && multiset(users) == multiset(users')
    ensures var m, m' := MergeGuests(guests, users), MergeGuests(guests, users');
            forall name | name in m :: name in m' && m'[name] == m[name]
  {
    var m, m' := MergeGuests(guests, users), MergeGuests(guests, users');
    forall name | name in m ensures name in m' && m'[name] == m[name] {
      GuestsExact(guests, users, name);
      var i :| LastMatchAt(guests, users, i, name);
      assert users[i] in multiset(users);
      GuestFromEntry(guests, users', users[i]);
    }
  }

  /** With distinct user names the guests do not depend on the order in which
      the answer lists the device users. */
  lemma GuestsOrderIrrelevant(guests: map<string, Guest>, users: seq<DeviceUser>, users': seq<DeviceUser>)
    requires DistinctNames(users) && multiset(users) == multiset(users')
    ensures MergeGuests(guests, users) == MergeGuests(guests, users')
  {
    DistinctInAnyOrder(users, users');
    GuestsSubset(guests, users, users');
    GuestsSubset(guests, users', users);
  }

  // ---------------------------------------------------------------------
  // Managed devices.

  function Listed(answers: seq<ManagedAnswer>): (ids: set<string>)
    ensures forall id :: id in ids <==> exists j | 0 <= j < |answers| :: answers[j].deviceID == id
  {
    set j | 0 <= j < |answers| :: answers[j].deviceID
  }

  function NonOwners(ownerUserID: string, users: seq<Profile>): (r: seq<Profile>)
    ensures forall u :: u in r <==> u in users && u.userID != ownerUserID
  {
    if users == [] then []
    else
      var n := |users| - 1;
      assert users == users[..n] + [users[n]];
      NonOwners(ownerUserID, users[..n]) + if users[n].userID != ownerUserID then [users[n]] else []
  }

  /** The positions of the users other than the owner. */
  function NonOwnersAt(ownerUserID: string, users: seq<Profile>): (at: seq<nat>)
    ensures forall i | 0 <= i < |at| :: at[i] < |users|
  {
    if users == [] then []
    else
      var n := |users| - 1;
      NonOwnersAt(ownerUserID, users[..n]) + if users[n].userID != ownerUserID then [n] else []
  }

  lemma {:induction false} NonOwnersAtExact(ownerUserID: string, users: seq<Profile>)
    ensures var at := NonOwnersAt(ownerUserID, users);
            && (forall i, j | 0 <= i < j < |at| :: at[i] < at[j])
            && (forall i | 0 <= i < |users| :: i in at <==> users[i].userID != ownerUserID)
  {
    if users != [] {
      var n := |users| - 1;
      NonOwnersAtExact(ownerUserID, users[..n]);
      forall i | 0 <= i < |users| ensures i in NonOwnersAt(ownerUserID, users) <==> users[i].userID != ownerUserID {
        if i < n { assert users[..n][i] == users[i]; }
      }
    }
  }

  lemma {:induction false} NonOwnersAreThere(ownerUserID: string, users: seq<Profile>)
    ensures var at, r := NonOwnersAt(ownerUserID, users), NonOwners(ownerUserID, users);
            |r| == |at| && forall i | 0 <= i < |at| :: r[i] == users[at[i]]
  {
    if users != [] { NonOwnersAreThere(ownerUserID, users[..|users| - 1]); }
  }

  /** The users other than the owner, each once and in the order of the answer. */
  lemma NonOwnersExact(ownerUserID: string, users: seq<Profile>) returns (at: seq<nat>)
    ensures var r := NonOwners(ownerUserID, users);
            |r| == |at| && forall i | 0 <= i < |at| :: at[i] < |users| && r[i] == users[at[i]]
    ensures forall i, j | 0 <= i < j < |at| :: at[i] < at[j]
    ensures forall i | 0 <= i < |users| :: i in at <==> users[i].userID != ownerUserID
  {
    at := NonOwnersAt(ownerUserID, users);
    NonOwnersAtExact(ownerUserID, users);
    NonOwnersAreThere(ownerUserID, users);
  }

  predicate FirstEntry(answers: seq<ManagedAnswer>, j: int, id: string) {
    && 0 <= j < |answers| && answers[j].deviceID == id
    && forall k | 0 <= k < j :: answers[k].deviceID != id
  }

  function FirstFrom(answers: seq<ManagedAnswer>, id: string, i: nat): (j: nat)
    requires id in Listed(answers) && i <= |answers|
    requires forall k | 0 <= k < i :: answers[k].deviceID != id
    ensures FirstEntry(answers, j, id)
    decreases |answers| - i
  {
    if i < |answers| && answers[i].deviceID == id then i
    else
      assert i < |answers|;
      FirstFrom(answers, id, i + 1)
  }

  /** The users in the first entry for a device. */
  function FirstUsers(answers: seq<ManagedAnswer>, id: string): seq<Profile>
    requires id in Listed(answers)
  {
    answers[FirstFrom(answers, id, 0)].users
  }

  lemma FirstUsersExact(answers: seq<ManagedAnswer>, id: string, j: int)
    requires FirstEntry(answers, j, id)
    ensures id in Listed(answers) && FirstUsers(answers, id) == answers[j].users
  {
    assert answers[j].deviceID == id;
    var m := FirstFrom(answers, id, 0);
    assert answers[m].deviceID == id;
  }

  /** Device i is the one found under its ID: the last with it. */
  predicate LastWithID(managed: seq<Managed>, i: nat)
    requires i < |managed|
  {
    forall j | i < j < |managed| :: managed[j].deviceID != managed[i].deviceID
  }

  function Extended(ownerUserID: string, managed: seq<Managed>, answers: seq<ManagedAnswer>, i: nat): Managed
    requires i < |managed|
  {
    var d := managed[i];
    if d.deviceID in Listed(answers) && LastWithID(managed, i)
    then d.(users := d.users + NonOwners(ownerUserID, FirstUsers(answers, d.deviceID)))
    else d
  }

  /** Where the devices with a listed ID are, in order. */
  function KeptAt(ids: set<string>, managed: seq<Managed>): (at: seq<nat>)
    ensures forall i | 0 <= i < |at| :: at[i] < |managed|
  {
    if managed == [] then []
    else
      var n := |managed| - 1;
      KeptAt(ids, managed[..n]) + if managed[n].deviceID in ids then [n] else []
  }

  lemma {:induction false} KeptAtExact(ids: set<string>, managed: seq<Managed>)
    ensures var at := KeptAt(ids, managed);
            && (forall i, j | 0 <= i < j < |at| :: at[i] < at[j])
            && (forall i | 0 <= i < |managed| :: i in at <==> managed[i].deviceID in ids)
  {
    if managed != [] {
      var n := |managed| - 1;
      var at := KeptAt(ids, managed[..n]);
      KeptAtExact(ids, managed[..n]);
      forall i | 0 <= i < |managed| ensures i in KeptAt(ids, managed) <==> managed[i].deviceID in ids {
        if i < n { assert managed[..n][i] == managed[i]; }
      }
    }
  }

  /** The surviving managed devices: the listed ones in their old order, each
      extended by the non-owner users of its first entry. */
  function Reconciled(ownerUserID: string, managed: seq<Managed>, answers: seq<ManagedAnswer>): (r: seq<Managed>)
    ensures |r| == |KeptAt(Listed(answers), managed)|
    ensures forall i | 0 <= i < |r| ::
              r[i] == Extended(ownerUserID, managed, answers, KeptAt(Listed(answers), managed)[i])
  {
    var at := KeptAt(Listed(answers), managed);
    seq(|at|, i requires 0 <= i < |at| => Extended(ownerUserID, managed, answers, at[i]))
  }

  // ---------------------------------------------------------------------
  // The whole update.

  function AdminUpdate(ctx: Context, a: Answer): Updated
    requires ctx.device.Some? && ctx.ownerUserID.Some? && a.AuthDevice?
  {
    var owner := ctx.ownerUserID.value;
    var n := Accepted(owner, a.users);
    Updated(ctx.(device := Some(Device(ctx.device.value.deviceID, a.deviceName, a.deviceType)),
                 managed := Reconciled(owner, ctx.managed, a.managed),
                 guests := MergeGuests(ctx.guests, a.users[..n])),
            if n < |a.users| then Some(INVALID) else None)
  }

  function GuestUpdate(ctx: Context, accessType: string): Updated {
    if accessType == UNAUTHORIZED then Updated(ctx, Some(UNAUTHORIZED))
    else if ctx.loggedInUserName !in ctx.guests then Updated(ctx, Some(INVALID))
    else
      var active := accessType == "guest";
      var g := ctx.guests[ctx.loggedInUserName];
      Updated(ctx.(guests := ctx.guests[ctx.loggedInUserName := g.(active := active)]),
              if active then None else Some(PENDING))
  }

  /** The answer is that of an administrator of this very device. */
  predicate AdminAnswer(ctx: Context, a: Answer) {
    && ctx.device.Some? && ctx.ownerUserID.Some? && a.AuthDevice? && a.accessType == "admin"
    && ctx.loggedInUserID == ctx.ownerUserID.value && a.deviceID == ctx.device.value.deviceID
  }

  function Update(ctx: Context, a: Answer): Updated {
    if ctx.device == None then Updated(ctx, Some(NO_DEVICE))
    else if ctx.ownerUserID == None then Updated(ctx, Some(NO_OWNER))
    else if a.Failed? then Updated(ctx, Some(a.error))
    else if a.accessType == "admin" then
      if AdminAnswer(ctx, a) then AdminUpdate(ctx, a) else Updated(ctx, Some(INVALID))
    else GuestUpdate(ctx, a.accessType)
  }

  /** An update without error means that the logged in user is the owner, or a
      guest of this context who is active now; a guest's update changes nothing
      but that. */
  lemma SuccessMeansAuthorised(ctx: Context, a: Answer)
    requires Update(ctx, a).error == None
    ensures a.AuthDevice?
    ensures var c := Update(ctx, a).ctx;
            && c.ownerUserID.Some?
            && (c.loggedInUserID == c.ownerUserID.value
                || (c.loggedInUserName in ctx.guests && c.loggedInUserName in c.guests
                    && c.guests[c.loggedInUserName].active))
            && (!AdminAnswer(ctx, a) ==>
                  && a.accessType == "guest" && ctx.loggedInUserName in ctx.guests
                  && c == ctx.(guests := ctx.guests[ctx.loggedInUserName :=
                                 ctx.guests[ctx.loggedInUserName].(active := true)]))
  {
  }

  /** Errors leave the context as it was, but for two: the owner entry refused
      half way through an administrator's answer, and the guest whose access is
      pending, who is deactivated. */
  lemma ErrorsChangeNothingElse(ctx: Context, a: Answer)
    requires Update(ctx, a).error.Some? && !AdminAnswer(ctx, a)
    ensures var c := Update(ctx, a).ctx;
            if ctx.device.Some? && ctx.ownerUserID.Some? && a.AuthDevice?
               && a.accessType !in {"admin", UNAUTHORIZED} && ctx.loggedInUserName in ctx.guests
            then Update(ctx, a).error == Some(PENDING)
                 && c == ctx.(guests := ctx.guests[ctx.loggedInUserName :=
                                ctx.guests[ctx.loggedInUserName].(active := false)])
            else c == ctx
  {
  }

  // ---------------------------------------------------------------------
  // What only shrinks.

  function DeviceIDs(managed: seq<Managed>): (ids: seq<string>)
    ensures |ids| == |managed| && forall i | 0 <= i < |ids| :: ids[i] == managed[i].deviceID
  {
    seq(|managed|, i requires 0 <= i < |managed| => managed[i].deviceID)
  }

  /** `now` has no guest and no managed device that `was` has not. */
  ghost predicate Shrunk(was: Context, now: Context) {
    && now.guests.Keys <= was.guests.Keys
    && (forall name | name in now.guests :: now.guests[name].userID == was.guests[name].userID)
    && multiset(DeviceIDs(now.managed)) <= multiset(DeviceIDs(was.managed))
    && now.ownerUserID == was.ownerUserID
    && now.loggedInUserID == was.loggedInUserID && now.loggedInUserName == was.loggedInUserName
    && (now.device.Some? <==> was.device.Some?)
    && (now.device.Some? ==> now.device.value.deviceID == was.device.value.deviceID)
  }

  function KeptIDs(ids: set<string>, all: seq<string>): seq<string> {
    if all == [] then []
    else KeptIDs(ids, all[..|all| - 1]) + if all[|all| - 1] in ids then [all[|all| - 1]] else []
  }

  lemma {:induction false} KeptIDsSubset(ids: set<string>, all: seq<string>)
    ensures multiset(KeptIDs(ids, all)) <= multiset(all)
  {
    if all != [] {
      var n := |all| - 1;
      KeptIDsSubset(ids, all[..n]);
      assert all == all[..n] + [all[n]];
    }
  }

  lemma {:induction false} KeptAtIDs(ids: set<string>, managed: seq<Managed>)
    ensures var at := KeptAt(ids, managed);
            seq(|at|, i requires 0 <= i < |at| => managed[at[i]].deviceID) == KeptIDs(ids, DeviceIDs(managed))
  {
    if managed != [] {
      var n := |managed| - 1;
      KeptAtIDs(ids, managed[..n]);
      assert DeviceIDs(managed)[..n] == DeviceIDs(managed[..n]);
    }
  }

  /** The IDs that survive are the listed ones, in order. */
  lemma ReconciledIDs(ownerUserID: string, managed: seq<Managed>, answers: seq<ManagedAnswer>)
    ensures DeviceIDs(Reconciled(ownerUserID, managed, answers)) == KeptIDs(Listed(answers), DeviceIDs(managed))
  {
    KeptAtIDs(Listed(answers), managed);
  }

  lemma UpdateShrinks(ctx: Context, a: Answer)
    ensures Shrunk(ctx, Update(ctx, a).ctx)
  {
    if AdminAnswer(ctx, a) {
      var owner := ctx.ownerUserID.value;
      var users := a.users[..Accepted(owner, a.users)];
      forall name | name in MergeGuests(ctx.guests, users)
        ensures name in ctx.guests && MergeGuests(ctx.guests, users)[name].userID == ctx.guests[name].userID
      {
        GuestsExact(ctx.guests, users, name);
      }
      ReconciledIDs(owner, ctx.managed, a.managed);
      KeptIDsSubset(Listed(a.managed), DeviceIDs(ctx.managed));
    }
  }

  function Updates(ctx: Context, answers: seq<Answer>): Context {
    if answers == [] then ctx else Update(Updates(ctx, answers[..|answers| - 1]), answers[|answers| - 1]).ctx
  }

  /** Over any sequence of answers and errors guests and managed devices only
      disappear, nobody is invented, and the owner stays. */
  lemma {:induction false} UpdatesShrink(ctx: Context, answers: seq<Answer>)
    ensures Shrunk(ctx, Updates(ctx, answers))
  {
    if answers != [] {
      var before := Updates(ctx, answers[..|answers| - 1]);
      UpdatesShrink(ctx, answers[..|answers| - 1]);
      UpdateShrinks(before, answers[|answers| - 1]);
    }
  }

  // ---------------------------------------------------------------------
  // The same answer twice.

  lemma MatchSurvives(guests: map<string, Guest>, users: seq<DeviceUser>, i: int, name: string)
    ensures MatchAt(MergeGuests(guests, users), users, i, name) <==> MatchAt(guests, users, i, name)
  {
    GuestsExact(guests, users, name);
    if MatchAt(guests, users, i, name) {
      SomeLastMatch(guests, users, i, name);
    }
  }

  lemma MergeTwice(guests: map<string, Guest>, users: seq<DeviceUser>)
    ensures MergeGuests(MergeGuests(guests, users), users) == MergeGuests(guests, users)
  {
    var once := MergeGuests(guests, users);
    var twice := MergeGuests(once, users);
    forall name ensures (name in twice <==> name in once) && (name in twice ==> twice[name] == once[name]) {
      GuestsExact(guests, users, name);
      GuestsExact(once, users, name);
      forall i ensures MatchAt(once, users, i, name) <==> MatchAt(guests, users, i, name) {
        MatchSurvives(guests, users, i, name);
      }
      forall i ensures LastMatchAt(once, users, i, name) <==> LastMatchAt(guests, users, i, name) {}
    }
  }

  lemma {:induction false} KeptIDsTwice(ids: set<string>, all: seq<string>)
    ensures KeptIDs(ids, KeptIDs(ids, all)) == KeptIDs(ids, all)
  {
    if all != [] {
      var n := |all| - 1;
      var init := KeptIDs(ids, all[..n]);
      KeptIDsTwice(ids, all[..n]);
      if all[n] in ids {
        assert (init + [all[n]])[..|init|] == init;
      } else {
        assert init + [] == init;
      }
    }
  }

  lemma SuccessfulAdminUpdate(ctx: Context, a: Answer)
    requires AdminAnswer(ctx, a) && Update(ctx, a).error == None
    ensures var owner, c := ctx.ownerUserID.value, Update(ctx, a).ctx;
            && Accepted(owner, a.users) == |a.users|
            && c.device == Some(Device(ctx.device.value.deviceID, a.deviceName, a.deviceType))
            && c.guests == MergeGuests(ctx.guests, a.users)
            && c.managed == Reconciled(owner, ctx.managed, a.managed)
            && c.ownerUserID == ctx.ownerUserID && c.loggedInUserID == ctx.loggedInUserID
  {
    assert a.users[..|a.users|] == a.users;
  }

  /** The exact result of a successful administrator's answer. A guest survives
      exactly when a non-owner entry names it with its user ID, with the fields
      of the last such entry. The surviving managed devices are the listed ones
      at increasing positions `at`; the one found under its ID gets the
      non-owner users of the first entry j for it. */
  lemma AdminUpdateExact(ctx: Context, a: Answer) returns (at: seq<nat>)
    requires AdminAnswer(ctx, a) && Update(ctx, a).error == None
    ensures var c := Update(ctx, a).ctx;
            && (forall name :: name in c.guests <==> exists i :: LastMatchAt(ctx.guests, a.users, i, name))
            && (forall name, i | LastMatchAt(ctx.guests, a.users, i, name) ::
                  name in ctx.guests
                  && var u, g := a.users[i].user, c.guests[name];
                  && g.userID == u.userID
                  && g.firstName == u.firstName && g.middleName == u.middleName && g.familyName == u.familyName
                  && (g.active <==> a.users[i].status == "active"))
    ensures var c := Update(ctx, a).ctx;
            && |at| == |c.managed|
            && (forall i, j | 0 <= i < j < |at| :: at[i] < at[j])
            && (forall i | 0 <= i < |ctx.managed| :: i in at <==> ctx.managed[i].deviceID in Listed(a.managed))
            && (forall i | 0 <= i < |at| ::
                  at[i] < |ctx.managed| && c.managed[i].deviceID == ctx.managed[at[i]].deviceID)
            && (forall i, j | 0 <= i < |at| && FirstEntry(a.managed, j, ctx.managed[at[i]].deviceID) ::
                  c.managed[i].users == ctx.managed[at[i]].users
                    + if LastWithID(ctx.managed, at[i])
                      then NonOwners(ctx.ownerUserID.value, a.managed[j].users) else [])
  {
    SuccessfulAdminUpdate(ctx, a);
    forall name
      ensures name in MergeGuests(ctx.guests, a.users) <==> exists i :: LastMatchAt(ctx.guests, a.users, i, name)
      ensures forall i | LastMatchAt(ctx.guests, a.users, i, name) ::
                name in ctx.guests
                && var u, g := a.users[i].user, MergeGuests(ctx.guests, a.users)[name];
                && g.userID == u.userID
                && g.firstName == u.firstName && g.middleName == u.middleName && g.familyName == u.familyName
                && (g.active <==> a.users[i].status == "active")
    {
      GuestsExact(ctx.guests, a.users, name);
    }
    at := KeptAt(Listed(a.managed), ctx.managed);
    KeptAtExact(Listed(a.managed), ctx.managed);
    forall i, j | 0 <= i < |at| && FirstEntry(a.managed, j, ctx.managed[at[i]].deviceID)
      ensures Update(ctx, a).ctx.managed[i].users == ctx.managed[at[i]].users
                + if LastWithID(ctx.managed, at[i]) then NonOwners(ctx.ownerUserID.value, a.managed[j].users) else []
    {
      FirstUsersExact(a.managed, ctx.managed[at[i]].deviceID, j);
      assert ctx.managed[at[i]].users + [] == ctx.managed[at[i]].users;
    }
  }

  lemma MatchInPrefix(guests: map<string, Guest>, users: seq<DeviceUser>, n: nat, name: string)
    requires n <= |users|
    ensures (exists i :: LastMatchAt(guests, users[..n], i, name))
            <==> exists i :: i < n && MatchAt(guests, users, i, name)
  {
    if i :| i < n && MatchAt(guests, users, i, name) {
      assert MatchAt(guests, users[..n], i, name);
      SomeLastMatch(guests, users[..n], i, name);
    }
    if i :| LastMatchAt(guests, users[..n], i, name) {
      assert MatchAt(guests, users, i, name);
    }
  }

  /** An administrator's answer is refused exactly when it has an owner entry
      with another user ID. Then the guest map is rebuilt from the entries before
      the first of these: the last matching one there gives the fields, and a
      guest is lost exactly when all entries that match it come later. The
      devices are updated all the same. */
  lemma AdminGuestsExact(ctx: Context, a: Answer, name: string)
    requires AdminAnswer(ctx, a)
    ensures var n, c := Accepted(ctx.ownerUserID.value, a.users), Update(ctx, a);
            && (c.error == None <==> forall u | u in a.users && u.isOwner :: Some(u.user.userID) == ctx.ownerUserID)
            && (forall i | LastMatchAt(ctx.guests, a.users[..n], i, name) ::
                  name in c.ctx.guests
                  && var u, g := a.users[i].user, c.ctx.guests[name];
                  && g.userID == u.userID
                  && g.firstName == u.firstName && g.middleName == u.middleName && g.familyName == u.familyName
                  && (g.active <==> a.users[i].status == "active"))
            && (name !in c.ctx.guests <==> forall i | MatchAt(ctx.guests, a.users, i, name) :: n < i)
            && c.ctx.device == Some(Device(a.deviceID, a.deviceName, a.deviceType))
            && c.ctx.managed == Reconciled(ctx.ownerUserID.value, ctx.managed, a.managed)
  {
    var owner := ctx.ownerUserID.value;
    var n := Accepted(owner, a.users);
    GuestsExact(ctx.guests, a.users[..n], name);
    MatchInPrefix(ctx.guests, a.users, n, name);
    if n < |a.users| { assert a.users[n] in a.users; }
  }

  /** With which error an answer ends, by the answer and the user. */
  lemma UpdateErrorExact(ctx: Context, a: Answer)
    ensures var error, ready := Update(ctx, a).error, ctx.device.Some? && ctx.ownerUserID.Some?;
            && (ctx.device == None ==> error == Some("device context has not been initialized with a device"))
            && (ctx.device.Some? && !ready ==> error == Some("device context has not been initialized with an owner"))
            && (ready && a.Failed? ==> error == Some(a.error))
            && (ready && a.AuthDevice? ==>
                  if a.accessType == "admin" then
                    if && Some(ctx.loggedInUserID) == ctx.ownerUserID && a.deviceID == ctx.device.value.deviceID
                       && forall u | u in a.users && u.isOwner :: Some(u.user.userID) == ctx.ownerUserID
                    then error == None else error == Some("invalid device context")
                  else if a.accessType == "unauthorized" then error == Some("unauthorized")
                  else if ctx.loggedInUserName !in ctx.guests then error == Some("invalid device context")
                  else if a.accessType == "guest" then error == None
                  else error == Some("unauthorized(pending)"))
  {
    if AdminAnswer(ctx, a) { AdminGuestsExact(ctx, a, ctx.loggedInUserName); }
  }

  /** It happens: the answer confirms a guest after a refused owner entry. */
  lemma RefusedAnswerLosesGuest(owner: string, own: Device, name: string, guest: Guest, other: DeviceUser)
    returns (ctx: Context, a: Answer)
    requires BadOwner(owner, other)
    ensures AdminAnswer(ctx, a) && Update(ctx, a).error == Some(INVALID)
    ensures name in ctx.guests && MatchAt(ctx.guests, a.users, 1, name) && name !in Update(ctx, a).ctx.guests
  {
    var entry := DeviceUser(Profile(guest.userID, name, [], [], []), false, []);
    ctx := Context(Some(own), Some(owner), owner, [], map[name := guest], []);
    a := AuthDevice("admin", own.deviceID, own.name, own.kind, [], [other, entry]);
    assert AdminAnswer(ctx, a) && Accepted(owner, a.users) == 0;
    AdminGuestsExact(ctx, a, name);
  }

  lemma SameIDsTwice(ownerUserID: string, managed: seq<Managed>, answers: seq<ManagedAnswer>)
    ensures var once := Reconciled(ownerUserID, managed, answers);
            DeviceIDs(Reconciled(ownerUserID, once, answers)) == DeviceIDs(once)
  {
    var once := Reconciled(ownerUserID, managed, answers);
    ReconciledIDs(ownerUserID, managed, answers);
    ReconciledIDs(ownerUserID, once, answers);
    KeptIDsTwice(Listed(answers), DeviceIDs(managed));
  }

  /** A successful administrator's answer applied twice gives the guests and
      the managed device IDs it gave the first time. */
  lemma UpdateTwice(ctx: Context, a: Answer)
    requires AdminAnswer(ctx, a) && Update(ctx, a).error == None
    ensures var once := Update(ctx, a).ctx;
            var twice := Update(once, a);
            && twice.error == None
            && twice.ctx.guests == once.guests && twice.ctx.device == once.device
            && DeviceIDs(twice.ctx.managed) == DeviceIDs(once.managed)
  {
    var owner, once := ctx.ownerUserID.value, Update(ctx, a).ctx;
    SuccessfulAdminUpdate(ctx, a);
    assert AdminAnswer(once, a) && Update(once, a) == AdminUpdate(once, a);
    SuccessfulAdminUpdate(once, a);
    MergeTwice(ctx.guests, a.users);
    SameIDsTwice(owner, ctx.managed, a.managed);
  }

  lemma {:induction false} AllKept(ids: set<string>, managed: seq<Managed>)
    requires forall i | 0 <= i < |managed| :: managed[i].deviceID in ids
    ensures |KeptAt(ids, managed)| == |managed|
    ensures forall i | 0 <= i < |managed| :: KeptAt(ids, managed)[i] == i
  {
    if managed != [] { AllKept(ids, managed[..|managed| - 1]); }
  }

  lemma {:induction false} LastWithSameID(managed: seq<Managed>, i: nat) returns (last: nat)
    requires i < |managed|
    ensures i <= last < |managed| && managed[last].deviceID == managed[i].deviceID && LastWithID(managed, last)
    decreases |managed| - i
  {
    if j :| i < j < |managed| && managed[j].deviceID == managed[i].deviceID {
      last := LastWithSameID(managed, j);
    } else {
      last := i;
    }
  }

  /** No managed device is listed with other users than the owner in its first
      entry. */
  ghost predicate OnlyOwnerListed(ownerUserID: string, managed: seq<Managed>, answers: seq<ManagedAnswer>) {
    forall i, j | 0 <= i < |managed| && FirstEntry(answers, j, managed[i].deviceID) ::
      forall u | u in answers[j].users :: u.userID == ownerUserID
  }

  lemma OnlyOwnerMeans(ownerUserID: string, answers: seq<ManagedAnswer>, id: string, j: int)
    requires FirstEntry(answers, j, id)
    ensures id in Listed(answers)
    ensures NonOwners(ownerUserID, FirstUsers(answers, id)) == []
            <==> forall u | u in answers[j].users :: u.userID == ownerUserID
  {
    FirstUsersExact(answers, id, j);
    var more := NonOwners(ownerUserID, answers[j].users);
    if more != [] { assert more[0] in more; }
  }

  /** The devices that survived an answer stay as they are when it comes again,
      exactly when it lists no user but the owner for any of them. */
  lemma ReconciledTwiceIff(ownerUserID: string, managed: seq<Managed>, answers: seq<ManagedAnswer>)
    requires forall i | 0 <= i < |managed| :: managed[i].deviceID in Listed(answers)
    ensures Reconciled(ownerUserID, managed, answers) == managed <==> OnlyOwnerListed(ownerUserID, managed, answers)
  {
    var again := Reconciled(ownerUserID, managed, answers);
    AllKept(Listed(answers), managed);
    if again == managed {
      forall i, j | 0 <= i < |managed| && FirstEntry(answers, j, managed[i].deviceID)
        ensures forall u | u in answers[j].users :: u.userID == ownerUserID
      {
        var last := LastWithSameID(managed, i);
        assert again[last] == Extended(ownerUserID, managed, answers, last);
        var more := NonOwners(ownerUserID, FirstUsers(answers, managed[i].deviceID));
        assert |managed[last].users + more| == |managed[last].users|;
        OnlyOwnerMeans(ownerUserID, answers, managed[i].deviceID, j);
      }
    } else {
      var i :| 0 <= i < |managed| && again[i] != managed[i];
      assert again[i] == Extended(ownerUserID, managed, answers, i);
      var j := FirstFrom(answers, managed[i].deviceID, 0);
      OnlyOwnerMeans(ownerUserID, answers, managed[i].deviceID, j);
      assert managed[i].users + [] == managed[i].users;
    }
  }

  /** The same devices are listed before and after. */
  lemma SameOnlyOwner(ownerUserID: string, managed: seq<Managed>, answers: seq<ManagedAnswer>)
    ensures var once := Reconciled(ownerUserID, managed, answers);
            && (forall i | 0 <= i < |once| :: once[i].deviceID in Listed(answers))
            && (OnlyOwnerListed(ownerUserID, once, answers) <==> OnlyOwnerListed(ownerUserID, managed, answers))
  {
    var once, at := Reconciled(ownerUserID, managed, answers), KeptAt(Listed(answers), managed);
    KeptAtExact(Listed(answers), managed);
    forall i | 0 <= i < |once| ensures at[i] in at && once[i].deviceID == managed[at[i]].deviceID {}
    forall i, j | 0 <= i < |managed| && FirstEntry(answers, j, managed[i].deviceID)
      ensures exists k :: 0 <= k < |once| && once[k].deviceID == managed[i].deviceID
    {
      assert i in at;
      var k :| 0 <= k < |at| && at[k] == i;
      assert once[k].deviceID == managed[i].deviceID;
    }
  }

  /** The lists of device users are not idempotent: a repeated administrator's
      answer changes the context again, exactly when the first entry for some
      managed device lists a user other than the owner. */
  lemma RepeatedAnswerAppendsUsers(ctx: Context, a: Answer)
    requires AdminAnswer(ctx, a) && Update(ctx, a).error == None
    ensures Update(Update(ctx, a).ctx, a).ctx == Update(ctx, a).ctx
            <==> OnlyOwnerListed(ctx.ownerUserID.value, ctx.managed, a.managed)
  {
    var owner, once := ctx.ownerUserID.value, Update(ctx, a).ctx;
    SuccessfulAdminUpdate(ctx, a);
    assert AdminAnswer(once, a) && Update(once, a) == AdminUpdate(once, a);
    SuccessfulAdminUpdate(once, a);
    MergeTwice(ctx.guests, a.users);
    SameOnlyOwner(owner, ctx.managed, a.managed);
    ReconciledTwiceIff(owner, once.managed, a.managed);
  }

  /** It happens: an answer lists a managed device with a guest's user. */
  lemma RepeatedAnswerDiffers(owner: string, own: Device, md: string, user: Profile) returns (ctx: Context, a: Answer)
    requires user.userID != owner
    ensures AdminAnswer(ctx, a) && Update(ctx, a).error == None
    ensures Update(Update(ctx, a).ctx, a).ctx != Update(ctx, a).ctx
  {
    ctx := Context(Some(own), Some(owner), owner, [], map[], [Managed(md, [])]);
    a := AuthDevice("admin", own.deviceID, own.name, own.kind, [ManagedAnswer(md, [user])], []);
    assert AdminAnswer(ctx, a) && Accepted(owner, a.users) == 0;
    assert FirstEntry(a.managed, 0, ctx.managed[0].deviceID) && user in a.managed[0].users;
    RepeatedAnswerAppendsUsers(ctx, a);
  }

  // ---------------------------------------------------------------------
  // The order of the answer's device users.

  /** With distinct guest names, an administrator's answer that lists the device
      users in another order succeeds as well, and gives the same context. */
  lemma UsersOrderIrrelevant(ctx: Context, a: Answer, users': seq<DeviceUser>)
    requires AdminAnswer(ctx, a) && Update(ctx, a).error == None
    requires DistinctNames(a.users) && multiset(a.users) == multiset(users')
    ensures Update(ctx, a.(users := users')) == Update(ctx, a)
  {
    var owner, a' := ctx.ownerUserID.value, a.(users := users');
    SuccessfulAdminUpdate(ctx, a);
    GuestsOrderIrrelevant(ctx.guests, a.users, users');
    forall i | 0 <= i < |users'| ensures !BadOwner(owner, users'[i]) {
      assert users'[i] in multiset(a.users);
      var k :| 0 <= k < |a.users| && a.users[k] == users'[i];
    }
    assert AdminAnswer(ctx, a') && Accepted(owner, users') == |users'|;
    SuccessfulAdminUpdate(ctx, a');
  }
}
