/** UpdateDeviceContext (mycscloud/device.go) on the objects it changes: the
    guest users and devices that the context shares with its callers. */
module DeviceContextClass {
  import opened Outcomes
  import opened DeviceModel

  /** userspace.User; an update never changes a user's ID or name. */
  class User {
    const userID: string
    const name: string
    var firstName: string
    var middleName: string
    var familyName: string
    var active: bool

    ghost function AsGuest(): Guest reads this {
      Guest(userID, firstName, middleName, familyName, active)
    }

    constructor (userID: string, name: string)
      ensures this.name == name && AsGuest() == Guest(userID, "", "", "", false)
    {
      this.userID, this.name := userID, name;
      firstName, middleName, familyName, active := "", "", "", false;
    }
  }

  /** The device the client runs on. */
  class OwnDevice {
    const deviceID: string
    var name: string
    var kind: string

    constructor (deviceID: string) ensures this.deviceID == deviceID {
      this.deviceID := deviceID;
      name, kind := "", "";
    }
  }

  /** The users of a managed device are made by an update and not changed
      afterwards, so they are values here. */
  class ManagedDevice {
    const deviceID: string
    var deviceUsers: seq<Profile>

    constructor (deviceID: string) ensures this.deviceID == deviceID && deviceUsers == [] {
      this.deviceID := deviceID;
      deviceUsers := [];
    }
  }

  /** The devices have these values. */
  ghost predicate Show(ds: seq<ManagedDevice>, ms: seq<Managed>)
    reads ds`deviceUsers
  {
    |ds| == |ms| && forall i | 0 <= i < |ds| :: ms[i].deviceID == ds[i].deviceID && ms[i].users == ds[i].deviceUsers
  }

  /** The devices have the values `was` extended as the entries say. */
  ghost predicate ShowExtended(ds: seq<ManagedDevice>, was: seq<Managed>, owner: string, answers: seq<ManagedAnswer>)
    reads ds`deviceUsers
  {
    && |ds| == |was|
    && forall i: nat | i < |ds| ::
         was[i].deviceID == ds[i].deviceID && ds[i].deviceUsers == Extended(owner, was, answers, i).users
  }

  lemma NothingExtended(ds: seq<ManagedDevice>, was: seq<Managed>, owner: string)
    requires Show(ds, was)
    ensures ShowExtended(ds, was, owner, [])
  {
    assert Listed([]) == {};
  }

  /** The guests have these values. */
  ghost predicate HaveGuests(users: map<string, User>, guests: map<string, Guest>)
    reads users.Values
  {
    users.Keys == guests.Keys && forall name | name in users :: users[name].AsGuest() == guests[name]
  }

  /** The devices whose ID is not in a given set. */
  function Without(ds: seq<ManagedDevice>, drop: set<string>): seq<ManagedDevice> {
    if ds == [] then []
    else
      Without(ds[..|ds| - 1], drop) + if ds[|ds| - 1].deviceID in drop then [] else [ds[|ds| - 1]]
  }

  lemma {:induction false} WithoutTwice(ds: seq<ManagedDevice>, a: set<string>, b: set<string>)
    ensures Without(Without(ds, a), b) == Without(ds, a + b)
  {
    if ds != [] {
      var n := |ds| - 1;
      var init := Without(ds[..n], a);
      WithoutTwice(ds[..n], a, b);
      if ds[n].deviceID in a {
        assert init + [] == init;
      } else {
        assert (init + [ds[n]])[..|init|] == init;
      }
    }
  }

  lemma {:induction false} WithoutNothing(ds: seq<ManagedDevice>)
    ensures Without(ds, {}) == ds
  {
    if ds != [] { WithoutNothing(ds[..|ds| - 1]); }
  }

  /** Dropping the unlisted devices leaves those that the model keeps. */
  lemma {:induction false} WithoutKeepsListed(
    ds: seq<ManagedDevice>, drop: set<string>, was: seq<Managed>, listed: set<string>)
    requires |ds| == |was|
    requires forall i | 0 <= i < |ds| :: ds[i].deviceID == was[i].deviceID
    requires forall i | 0 <= i < |ds| :: ds[i].deviceID in drop <==> ds[i].deviceID !in listed
    ensures var at := KeptAt(listed, was);
            |Without(ds, drop)| == |at| && forall i | 0 <= i < |at| :: Without(ds, drop)[i] == ds[at[i]]
  {
    if ds != [] {
      var n := |ds| - 1;
      WithoutKeepsListed(ds[..n], drop, was[..n], listed);
    }
  }

  ghost predicate Distinct(ds: seq<ManagedDevice>) {
    forall i, j | 0 <= i < j < |ds| :: ds[i] != ds[j]
  }

  /** The last device with each ID. */
  function LastByID(ds: seq<ManagedDevice>): map<string, ManagedDevice> {
    if ds == [] then map[] else LastByID(ds[..|ds| - 1])[ds[|ds| - 1].deviceID := ds[|ds| - 1]]
  }

  lemma {:induction false} LastByIDKeys(ds: seq<ManagedDevice>, id: string)
    ensures id in LastByID(ds) <==> exists i | 0 <= i < |ds| :: ds[i].deviceID == id
    ensures id in LastByID(ds) ==> LastByID(ds)[id] in ds && LastByID(ds)[id].deviceID == id
  {
    if ds != [] {
      var n := |ds| - 1;
      LastByIDKeys(ds[..n], id);
      if i :| 0 <= i < n && ds[i].deviceID == id { assert ds[..n][i].deviceID == id; }
      if i :| 0 <= i < n && ds[..n][i].deviceID == id { assert ds[i].deviceID == id; }
    }
  }

  /** Every device of the context is listed or left over, not both. */
  lemma ListedOrLeft(ds: seq<ManagedDevice>, listed: set<string>, i: nat)
    requires i < |ds|
    ensures ds[i].deviceID in LastByID(ds).Keys - listed <==> ds[i].deviceID !in listed
  {
    LastByIDKeys(ds, ds[i].deviceID);
  }

  lemma {:induction false} WithoutDistinct(ds: seq<ManagedDevice>, drop: set<string>)
    requires Distinct(ds)
    ensures Distinct(Without(ds, drop)) && forall d | d in Without(ds, drop) :: d in ds
  {
    if ds != [] {
      var n := |ds| - 1;
      assert forall i | 0 <= i < n :: ds[..n][i] == ds[i];
      WithoutDistinct(ds[..n], drop);
      assert ds[n] !in ds[..n];
    }
  }

  /** With the listed devices extended, dropping the others leaves objects with
      the values of the model. */
  lemma KeptObjectsShow(ds: seq<ManagedDevice>, drop: set<string>, was: seq<Managed>,
                        ownerUserID: string, answers: seq<ManagedAnswer>)
    requires Distinct(ds) && ShowExtended(ds, was, ownerUserID, answers)
    requires forall i: nat | i < |ds| :: ds[i].deviceID in drop <==> ds[i].deviceID !in Listed(answers)
    ensures Show(Without(ds, drop), Reconciled(ownerUserID, was, answers))
    ensures Distinct(Without(ds, drop)) && forall d | d in Without(ds, drop) :: d in ds
  {
    WithoutDistinct(ds, drop);
    WithoutKeepsListed(ds, drop, was, Listed(answers));
    var now, at, r := Without(ds, drop), KeptAt(Listed(answers), was), Reconciled(ownerUserID, was, answers);
    forall i | 0 <= i < |now| ensures r[i].deviceID == now[i].deviceID && r[i].users == now[i].deviceUsers {
      assert now[i] == ds[at[i]] && r[i] == Extended(ownerUserID, was, answers, at[i]);
    }
  }

  lemma {:induction false} LastByIDExact(ds: seq<ManagedDevice>, i: nat)
    requires Distinct(ds) && i < |ds|
    ensures ds[i].deviceID in LastByID(ds)
    ensures LastByID(ds)[ds[i].deviceID] == ds[i] <==> forall j | i < j < |ds| :: ds[j].deviceID != ds[i].deviceID
  {
    var n := |ds| - 1;
    if i < n {
      assert ds[..n][i] == ds[i];
      LastByIDExact(ds[..n], i);
      assert forall j | i < j < n :: ds[..n][j] == ds[j];
    }
  }

  lemma ListedPrefix(answers: seq<ManagedAnswer>, k: nat)
    requires k < |answers|
    ensures Listed(answers[..k + 1]) == Listed(answers[..k]) + {answers[k].deviceID}
  {
    var now, next := answers[..k], answers[..k + 1];
    assert forall j | 0 <= j < k :: next[j] == now[j];
    forall id ensures id in Listed(next) <==> id in Listed(now) || id == answers[k].deviceID {
      if id in Listed(next) {
        var j :| 0 <= j < |next| && next[j].deviceID == id;
        if j < k { assert now[j].deviceID == id; }
      }
      if id in Listed(now) {
        var j :| 0 <= j < |now| && now[j].deviceID == id;
        assert next[j].deviceID == id;
      }
      assert next[k].deviceID == answers[k].deviceID;
    }
  }

  lemma FirstEntryPrefix(answers: seq<ManagedAnswer>, k: nat, id: string, m: nat)
    requires k < |answers| && FirstEntry(answers[..k], m, id)
    ensures FirstEntry(answers[..k + 1], m, id) && answers[..k + 1][m] == answers[..k][m]
  {
    var now, next := answers[..k], answers[..k + 1];
    forall j | 0 <= j < m ensures next[j].deviceID != id { assert now[j].deviceID != id; }
  }

  lemma FirstUsersPrefix(answers: seq<ManagedAnswer>, k: nat, id: string)
    requires k < |answers|
    ensures Listed(answers[..k + 1]) == Listed(answers[..k]) + {answers[k].deviceID}
    ensures id in Listed(answers[..k]) ==> FirstUsers(answers[..k + 1], id) == FirstUsers(answers[..k], id)
    ensures id == answers[k].deviceID && id !in Listed(answers[..k]) ==>
              FirstUsers(answers[..k + 1], id) == answers[k].users
  {
    var now, next := answers[..k], answers[..k + 1];
    ListedPrefix(answers, k);
    if id in Listed(now) {
      var m := FirstFrom(now, id, 0);
      FirstEntryPrefix(answers, k, id, m);
      FirstUsersExact(next, id, m);
    } else if id == answers[k].deviceID {
      forall j | 0 <= j < k ensures next[j].deviceID != id { assert now[j].deviceID in Listed(now); }
      FirstUsersExact(next, id, k);
    }
  }

  lemma ExtendedStep(owner: string, was: seq<Managed>, answers: seq<ManagedAnswer>, k: nat, i: nat)
    requires k < |answers| && i < |was|
    ensures var now, next := Extended(owner, was, answers[..k], i), Extended(owner, was, answers[..k + 1], i);
            if && was[i].deviceID == answers[k].deviceID
               && answers[k].deviceID !in Listed(answers[..k]) && LastWithID(was, i)
            then now == was[i] && next == was[i].(users := was[i].users + NonOwners(owner, answers[k].users))
            else next == now
  {
    FirstUsersPrefix(answers, k, was[i].deviceID);
  }

  lemma {:induction false} AcceptedExact(ownerUserID: string, users: seq<DeviceUser>, n: nat)
    requires n <= |users| && forall i | 0 <= i < n :: !BadOwner(ownerUserID, users[i])
    requires n < |users| ==> BadOwner(ownerUserID, users[n])
    ensures Accepted(ownerUserID, users) == n
  {
    if n > 0 {
      assert !BadOwner(ownerUserID, users[0]);
      AcceptedExact(ownerUserID, users[1..], n - 1);
    }
  }

  class DeviceContext {
    var device: OwnDevice?
    var owner: User?
    var guestUsers: map<string, User>
    var managedDevices: seq<ManagedDevice>
    var loggedInUserID: string
    var loggedInUserName: string

    /** Guests are kept under their names, and the managed devices are different
        objects. */
    ghost predicate Valid() reads this {
      && (forall name | name in guestUsers :: guestUsers[name].name == name)
      && Distinct(managedDevices)
    }

    constructor ()
      ensures Valid() && device == null && owner == null && guestUsers == map[] && managedDevices == []
    {
      device, owner := null, null;
      guestUsers, managedDevices := map[], [];
      loggedInUserID, loggedInUserName := "", "";
    }

    /** The objects of the context have the values of `ctx`. */
    ghost predicate Is(ctx: Context)
      reads this, guestUsers.Values, managedDevices, device
    {
      && ctx.device == (if device == null then None else Some(Device(device.deviceID, device.name, device.kind)))
      && ctx.ownerUserID == (if owner == null then None else Some(owner.userID))
      && ctx.loggedInUserID == loggedInUserID && ctx.loggedInUserName == loggedInUserName
      && HaveGuests(guestUsers, ctx.guests)
      && Show(managedDevices, ctx.managed)
    }

    method SetLoggedInUser(userID: string, userName: string, ghost ctx: Context)
      requires Is(ctx)
      modifies this`loggedInUserID, this`loggedInUserName
      ensures Is(ctx.(loggedInUserID := userID, loggedInUserName := userName))
    {
      loggedInUserID, loggedInUserName := userID, userName;
    }

    /** A new guest is not active. */
    method NewGuestUser(userID: string, userName: string, ghost ctx: Context)
      requires Valid() && Is(ctx) && userName !in guestUsers
      modifies this`guestUsers
      ensures Valid() && Is(ctx.(guests := ctx.guests[userName := Guest(userID, "", "", "", false)]))
    {
      var guest := new User(userID, userName);
      guestUsers := guestUsers[userName := guest];
    }

    method SetGuestActive(userName: string, active: bool, ghost ctx: Context)
      requires Valid() && Is(ctx) && userName in guestUsers
      modifies {guestUsers[userName]}`active
      ensures Is(ctx.(guests := ctx.guests[userName := ctx.guests[userName].(active := active)]))
    {
      guestUsers[userName].active := active;
    }

    method ResetGuestUsers() returns (was: map<string, User>)
      modifies this`guestUsers
      ensures was == old(guestUsers) && guestUsers == map[]
    {
      was := guestUsers;
      guestUsers := map[];
    }

    method AddGuestUser(user: User)
      modifies this`guestUsers
      ensures guestUsers == old(guestUsers)[user.name := user]
    {
      guestUsers := guestUsers[user.name := user];
    }

    method DeleteManageDevice(deviceID: string)
      modifies this`managedDevices
      ensures managedDevices == Without(old(managedDevices), {deviceID})
    {
      var kept := [];
      for i := 0 to |managedDevices|
        invariant kept == Without(managedDevices[..i], {deviceID})
      {
        assert managedDevices[..i + 1][..i] == managedDevices[..i];
        if managedDevices[i].deviceID != deviceID {
          kept := kept + [managedDevices[i]];
        }
      }
      assert managedDevices[..|managedDevices|] == managedDevices;
      managedDevices := kept;
    }

    /** managedDevicesInContext. */
    method ManagedByID() returns (m: map<string, ManagedDevice>)
      ensures m == LastByID(managedDevices)
    {
      m := map[];
      for n := 0 to |managedDevices|
        invariant m == LastByID(managedDevices[..n])
      {
        assert managedDevices[..n + 1][..n] == managedDevices[..n];
        m := m[managedDevices[n].deviceID := managedDevices[n]];
      }
      assert managedDevices[..|managedDevices|] == managedDevices;
    }

    lemma NonOwnersStep(ownerUserID: string, users: seq<Profile>, n: nat)
      requires n < |users|
      ensures NonOwners(ownerUserID, users[..n + 1])
              == NonOwners(ownerUserID, users[..n]) + if users[n].userID != ownerUserID then [users[n]] else []
    {
      assert users[..n + 1][..n] == users[..n];
    }

    /** Appends the non-owner users of an entry to a managed device. */
    method AppendUsers(md: ManagedDevice, ownerUserID: string, users: seq<Profile>)
      modifies md`deviceUsers
      ensures md.deviceUsers == old(md.deviceUsers) + NonOwners(ownerUserID, users)
    {
      for n := 0 to |users|
        invariant md.deviceUsers == old(md.deviceUsers) + NonOwners(ownerUserID, users[..n])
      {
        NonOwnersStep(ownerUserID, users, n);
        if users[n].userID != ownerUserID {
          md.deviceUsers := md.deviceUsers + [users[n]];
        }
      }
      assert users[..|users|] == users;
    }

    method ExtendOne(ownerUserID: string, ghost was: seq<Managed>, answers: seq<ManagedAnswer>, k: nat,
                     inContext: map<string, ManagedDevice>)
      returns (left: map<string, ManagedDevice>)
      requires Valid() && k < |answers| && ShowExtended(managedDevices, was, ownerUserID, answers[..k])
      requires inContext == LastByID(managedDevices) - Listed(answers[..k])
      modifies managedDevices`deviceUsers
      ensures left == inContext - {answers[k].deviceID}
      ensures ShowExtended(managedDevices, was, ownerUserID, answers[..k + 1])
    {
      var deviceID := answers[k].deviceID;
      left := inContext;
      LastByIDKeys(managedDevices, deviceID);
      if deviceID in inContext {
        AppendUsers(inContext[deviceID], ownerUserID, answers[k].users);
        left := left - {deviceID};
      }
      forall i: nat | i < |managedDevices|
        ensures managedDevices[i].deviceUsers == Extended(ownerUserID, was, answers[..k + 1], i).users
      {
        ExtendedStep(ownerUserID, was, answers, k, i);
        LastByIDExact(managedDevices, i);
      }
    }

    /** The loop over the managed devices of the answer; `left` are the devices
        that it does not list. */
    method ExtendManagedDevices(ownerUserID: string, answers: seq<ManagedAnswer>, ghost was: seq<Managed>)
      returns (left: map<string, ManagedDevice>)
      requires Valid() && Show(managedDevices, was)
      modifies managedDevices`deviceUsers
      ensures left.Keys == LastByID(managedDevices).Keys - Listed(answers)
      ensures ShowExtended(managedDevices, was, ownerUserID, answers)
    {
      left := ManagedByID();
      assert answers[..0] == [];
      NothingExtended(managedDevices, was, ownerUserID);
      for k := 0 to |answers|
        invariant left == LastByID(managedDevices) - Listed(answers[..k])
        invariant ShowExtended(managedDevices, was, ownerUserID, answers[..k])
      {
        ListedPrefix(answers, k);
        left := ExtendOne(ownerUserID, was, answers, k, left);
      }
      assert answers[..|answers|] == answers;
    }

    /** The loop that deletes the devices the answer does not list; the order
        in which Go visits the map is arbitrary. */
    method PruneManagedDevices(left: map<string, ManagedDevice>)
      modifies this`managedDevices
      ensures managedDevices == Without(old(managedDevices), left.Keys)
    {
      var ids := left.Keys;
      ghost var gone: set<string> := {};
      WithoutNothing(managedDevices);
      while ids != {}
        invariant gone + ids == left.Keys && managedDevices == Without(old(managedDevices), gone)
      {
        var deviceID :| deviceID in ids;
        WithoutTwice(old(managedDevices), gone, {deviceID});
        DeleteManageDevice(deviceID);
        ids, gone := ids - {deviceID}, gone + {deviceID};
      }
    }

    /** The managed devices become those of the model; they keep their objects. */
    method UpdateManagedDevices(ownerUserID: string, answers: seq<ManagedAnswer>, ghost was: seq<Managed>)
      requires Valid() && Show(managedDevices, was)
      modifies this`managedDevices, managedDevices`deviceUsers
      ensures Show(managedDevices, Reconciled(ownerUserID, was, answers))
      ensures Distinct(managedDevices) && forall d | d in managedDevices :: d in old(managedDevices)
    {
      ghost var ds, listed := managedDevices, Listed(answers);
      var left := ExtendManagedDevices(ownerUserID, answers, was);
      forall i: nat | i < |ds| ensures ds[i].deviceID in left <==> ds[i].deviceID !in listed {
        ListedOrLeft(ds, listed, i);
      }
      PruneManagedDevices(left);
      KeptObjectsShow(ds, left.Keys, was, ownerUserID, answers);
    }

    /** Copies the fields of a device user into a guest. */
    method RefreshGuest(guest: User, u: DeviceUser)
      modifies guest`firstName, guest`middleName, guest`familyName, guest`active
      ensures guest.AsGuest() == Refreshed(old(guest.AsGuest()), u)
      ensures guest.firstName == u.user.firstName && guest.middleName == u.user.middleName
      ensures guest.familyName == u.user.familyName && (guest.active <==> u.status == "active")
    {
      guest.firstName := u.user.firstName;
      guest.middleName := u.user.middleName;
      guest.familyName := u.user.familyName;
      guest.active := u.status == "active";
    }

    /** One device user that is not refused; `before` are the values the guests
        `was` had before the update, and `merged` those of the new guests. */
    method MergeDeviceUser(u: DeviceUser, was: map<string, User>,
                           ghost before: map<string, Guest>, ghost merged: map<string, Guest>)
      requires forall name | name in was :: was[name].name == name
      requires before.Keys == was.Keys && forall name | name in was :: before[name].userID == was[name].userID
      requires forall name | name in guestUsers :: name in was && guestUsers[name] == was[name]
      requires HaveGuests(guestUsers, merged)
      modifies this`guestUsers
      modifies was.Values`firstName, was.Values`middleName, was.Values`familyName, was.Values`active
      ensures forall name | name in guestUsers :: name in was && guestUsers[name] == was[name]
      ensures HaveGuests(guestUsers,
                         if Matches(before, u)
                         then merged[u.user.name := Refreshed(before[u.user.name], u)] else merged)
    {
      var name := u.user.name;
      if !u.isOwner && name in was && was[name].userID == u.user.userID {
        RefreshGuest(was[name], u);
        AddGuestUser(was[name]);
      }
    }

    /** The loop over the device users: rebuilds the guest map from the objects
        of the old one, until an entry claims another owner. */
    method MergeDeviceUsers(ownerUserID: string, users: seq<DeviceUser>, was: map<string, User>,
                            ghost before: map<string, Guest>)
      returns (err: Option<string>)
      requires guestUsers == map[] && forall name | name in was :: was[name].name == name
      requires HaveGuests(was, before)
      modifies this`guestUsers
      modifies was.Values`firstName, was.Values`middleName, was.Values`familyName, was.Values`active
      ensures var n := Accepted(ownerUserID, users);
              && err == (if n < |users| then Some(INVALID) else None)
              && HaveGuests(guestUsers, MergeGuests(before, users[..n]))
      ensures forall name | name in guestUsers :: name in was && guestUsers[name] == was[name]
    {
      assert forall name | name in was :: before[name].userID == was[name].userID;
      var n := 0;
      while n < |users|
        invariant n <= |users| && forall i | 0 <= i < n :: !BadOwner(ownerUserID, users[i])
        invariant forall name | name in guestUsers :: name in was && guestUsers[name] == was[name]
        invariant HaveGuests(guestUsers, MergeGuests(before, users[..n]))
      {
        var u := users[n];
        assert users[..n + 1][..n] == users[..n];
        if BadOwner(ownerUserID, u) {
          AcceptedExact(ownerUserID, users, n);
          return Some(INVALID);
        }
        MergeDeviceUser(u, was, before, MergeGuests(before, users[..n]));
        n := n + 1;
      }
      AcceptedExact(ownerUserID, users, n);
      err := None;
    }

    /** The part before the device users: managed devices and own device. */
    method UpdateDevices(a: Answer, ghost managed: seq<Managed>)
      requires Valid() && device != null && owner != null && a.AuthDevice? && Show(managedDevices, managed)
      modifies this`managedDevices, managedDevices`deviceUsers, device`name, device`kind
      ensures Show(managedDevices, Reconciled(owner.userID, managed, a.managed))
      ensures device.name == a.deviceName && device.kind == a.deviceType
      ensures Distinct(managedDevices) && forall d | d in managedDevices :: d in old(managedDevices)
    {
      UpdateManagedDevices(owner.userID, a.managed, managed);
      device.name, device.kind := a.deviceName, a.deviceType;
    }

    method UpdateObjects(a: Answer, ghost guests: map<string, Guest>, ghost managed: seq<Managed>)
      returns (err: Option<string>)
      requires Valid() && device != null && owner != null && a.AuthDevice?
      requires HaveGuests(guestUsers, guests) && Show(managedDevices, managed)
      modifies this`guestUsers, this`managedDevices, guestUsers.Values, managedDevices`deviceUsers
      modifies device`name, device`kind
      ensures var n := Accepted(owner.userID, a.users);
              && HaveGuests(guestUsers, MergeGuests(guests, a.users[..n]))
              && err == if n < |a.users| then Some(INVALID) else None
      ensures Show(managedDevices, Reconciled(owner.userID, managed, a.managed))
      ensures device.name == a.deviceName && device.kind == a.deviceType
      ensures forall name | name in guestUsers :: name in old(guestUsers) && guestUsers[name] == old(guestUsers)[name]
      ensures Distinct(managedDevices) && forall d | d in managedDevices :: d in old(managedDevices)
    {
      var was := ResetGuestUsers();
      UpdateDevices(a, managed);
      assert HaveGuests(was, guests);
      ghost var ds := managedDevices;
      err := MergeDeviceUsers(owner.userID, a.users, was, guests);
      assert managedDevices == ds && Show(ds, Reconciled(owner.userID, managed, a.managed));
    }

    method UpdateAsAdmin(a: Answer, ghost ctx: Context) returns (err: Option<string>)
      requires Valid() && Is(ctx) && device != null && owner != null && a.AuthDevice?
      modifies this`guestUsers, this`managedDevices, guestUsers.Values, managedDevices`deviceUsers
      modifies device`name, device`kind
      ensures Valid() && Is(AdminUpdate(ctx, a).ctx) && err == AdminUpdate(ctx, a).error
      ensures forall name | name in guestUsers :: name in old(guestUsers) && guestUsers[name] == old(guestUsers)[name]
      ensures forall d | d in managedDevices :: d in old(managedDevices)
    {
      err := UpdateObjects(a, ctx.guests, ctx.managed);
    }

    method UpdateAsGuest(accessType: string, ghost ctx: Context) returns (err: Option<string>)
      requires Valid() && Is(ctx)
      modifies guestUsers.Values`active
      ensures Is(GuestUpdate(ctx, accessType).ctx) && err == GuestUpdate(ctx, accessType).error
    {
      if accessType == UNAUTHORIZED {
        return Some(UNAUTHORIZED);
      }
      if loggedInUserName !in guestUsers {
        return Some(INVALID);
      }
      var active := accessType == "guest";
      SetGuestActive(loggedInUserName, active, ctx);
      err := if active then None else Some(PENDING);
    }

    /** Surviving guests and managed devices are the very objects of before;
        everything else about the result is the model's Update. */
    method UpdateDeviceContext(a: Answer, ghost ctx: Context) returns (err: Option<string>)
      requires Valid() && Is(ctx)
      modifies this`guestUsers, this`managedDevices, guestUsers.Values, managedDevices`deviceUsers, device
      ensures Valid() && Is(Update(ctx, a).ctx) && err == Update(ctx, a).error
      ensures forall name | name in guestUsers :: name in old(guestUsers) && guestUsers[name] == old(guestUsers)[name]
      ensures forall d | d in managedDevices :: d in old(managedDevices)
    {
      if device == null {
        return Some(NO_DEVICE);
      }
      if owner == null {
        return Some(NO_OWNER);
      }
      if a.Failed? {
        return Some(a.error);
      }
      if a.accessType == "admin" {
        if loggedInUserID != owner.userID {
          return Some(INVALID);
        }
        if a.deviceID != device.deviceID {
          return Some(INVALID);
        }
        err := UpdateAsAdmin(a, ctx);
      } else {
        err := UpdateAsGuest(a.accessType, ctx);
      }
    }
  }
}
