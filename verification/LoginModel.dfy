/** Login and AuthorizeDeviceAndUser (auth/auth.go), with every remote call,
    user answer and key operation turning out either way. */
module LoginModel {
  import opened Outcomes
  import opened DeviceModel

  /** The claims of the identity token. */
  datatype Token = Token(userID: string, userName: string, configTimestamp: int)

  /** The target context: as it was, emptied by a reset, or loaded from the
      remote configuration of the given timestamp. */
  datatype Targets = Untouched | Emptied | Synced(asOf: int)

  /** `token` is what the auth context holds; `ownerKey` tells whether the
      owner's private key is loaded. */
  datatype Session = Session(token: Option<Token>, ctx: Context, ownerKey: bool,
                             targets: Option<Targets>, configAsOf: int)

  datatype AuthError =
    | LoginFailed | NoOwner | BadToken
    | Refused(error: string)          // by UpdateDeviceContext
    | RequestFailed | RequestDeclined
    | NoOwnerKey | SyncFailed

  // ---------------------------------------------------------------------
  // GetAuthenticatedToken.

  /** Whether the reset before a forced login succeeds, what Authenticate leaves
      in the auth context and whether it succeeds, the parsing of the token, and
      SetLoggedInUser. */
  datatype TokenAnswers = TokenAnswers(reset: bool, token: Option<Token>,
                                       authenticated: bool, parsed: bool, userSet: bool)

  datatype Result = Result(s: Session, error: Option<AuthError>)

  function GetToken(s: Session, forceLogin: bool, a: TokenAnswers): Result {
    if forceLogin && !a.reset then Result(s, Some(LoginFailed))
    else
      var s1 := s.(token := a.token);
      if !a.authenticated || a.token == None || !a.parsed || !a.userSet then Result(s1, Some(LoginFailed))
      else
        var user := a.token.value;
        Result(s1.(ctx := s1.ctx.(loggedInUserID := user.userID, loggedInUserName := user.userName)), None)
  }

  /** A login, forced or not, succeeds exactly when the reset before a forced one
      and the four steps after it do; a forced login that cannot reset leaves
      everything as it was, and otherwise the token is that of the login. */
  lemma GetTokenExact(s: Session, forceLogin: bool, a: TokenAnswers)
    ensures var r := GetToken(s, forceLogin, a);
            && (r.error == None <==>
                  (forceLogin ==> a.reset) && a.authenticated && a.token.Some? && a.parsed && a.userSet)
            && (forceLogin && !a.reset ==> r.s == s)
            && (!forceLogin || a.reset ==> r.s.token == a.token)
            && (r.error.Some? ==> r.s == s.(token := r.s.token) && r.error == Some(LoginFailed))
            && (r.error == None ==>
                  && r.s.ctx.loggedInUserID == a.token.value.userID
                  && r.s.ctx.loggedInUserName == a.token.value.userName)
  {
  }

  // ---------------------------------------------------------------------
  // AuthorizeDeviceAndUser.

  datatype AuthorizeAnswers = AuthorizeAnswers(
    parsed: bool, update: Answer,
    requestAccess: bool, guestMade: bool, userAdded: bool, contextReset: bool,
    keyLoaded: bool,
    configRead: bool, targetsReset: bool, targetsLoaded: bool)

  function WithInactiveGuest(s: Session, token: Token): Session {
    var g := if token.userName in s.ctx.guests then s.ctx.guests[token.userName].(active := false)
             else Guest(token.userID, "", "", "", false);
    s.(ctx := s.ctx.(guests := s.ctx.guests[token.userName := g]))
  }

  function RequestAccess(s: Session, token: Token, a: AuthorizeAnswers): Result {
    if token.userName !in s.ctx.guests && !a.guestMade then Result(s, Some(RequestFailed))
    else Result(WithInactiveGuest(s, token), if a.userAdded then None else Some(RequestFailed))
  }

  function Reset(s: Session, ok: bool, error: Option<AuthError>): Result {
    Result(if ok then s.(token := None) else s, error)
  }

  /** The device update was refused: a user who is not known may ask for access.
      Unless that fails the auth context is reset, `contextReset` telling
      whether the reset succeeds. */
  function Unauthorised(s: Session, token: Token, error: string, a: AuthorizeAnswers): Result {
    if error != UNAUTHORIZED then Reset(s, a.contextReset, Some(Refused(error)))
    else if !a.requestAccess then Reset(s, a.contextReset, Some(RequestDeclined))
    else
      var r := RequestAccess(s, token, a);
      if r.error.Some? then r else Reset(r.s, a.contextReset, None)
  }

  function SyncTargets(s: Session, token: Token, a: AuthorizeAnswers): Result {
    if s.targets == None || s.configAsOf >= token.configTimestamp then Result(s, None)
    else if !a.configRead || !a.targetsReset then Result(s, Some(SyncFailed))
    else if !a.targetsLoaded then Result(s.(targets := Some(Emptied)), Some(SyncFailed))
    else Result(s.(targets := Some(Synced(token.configTimestamp)), configAsOf := token.configTimestamp), None)
  }

  /** The owner's key is loaded if need be, and then the target context is
      brought up to date with the remote configuration. */
  function AuthorizeOwner(s: Session, token: Token, a: AuthorizeAnswers): Result {
    if !s.ownerKey && !a.keyLoaded then Result(s, Some(NoOwnerKey))
    else SyncTargets(s.(ownerKey := true), token, a)
  }

  function AfterUpdate(s: Session, token: Token, ownerUserID: string, error: Option<string>, a: AuthorizeAnswers)
    : Result
  {
    if error.Some? then Unauthorised(s, token, error.value, a)
    else if token.userID == ownerUserID then AuthorizeOwner(s, token, a)
    else Result(s, None)
  }

  function Authorize(s: Session, a: AuthorizeAnswers): Result
    requires s.token.Some?
  {
    var token := s.token.value;
    if s.ctx.ownerUserID == None then Result(s, Some(NoOwner))
    else if !a.parsed then Result(s, Some(BadToken))
    else
      var updated := Update(s.ctx, a.update);
      AfterUpdate(s.(ctx := updated.ctx), token, s.ctx.ownerUserID.value, updated.error, a)
  }

  lemma AuthorizeUpdates(s: Session, a: AuthorizeAnswers, ownerUserID: string)
    requires s.token.Some? && a.parsed && s.ctx.ownerUserID == Some(ownerUserID)
    ensures var updated := Update(s.ctx, a.update);
            Authorize(s, a) == AfterUpdate(s.(ctx := updated.ctx), s.token.value, ownerUserID, updated.error, a)
  {
  }

  // ---------------------------------------------------------------------
  // Login.

  datatype LoginAnswers = LoginAnswers(login: TokenAnswers, auth: AuthorizeAnswers, finalReset: bool)

  function Attempt(s: Session, a: LoginAnswers): Result {
    var r := GetToken(s, false, a.login);
    if r.error.Some? then r else Authorize(r.s, a.auth)
  }

  /** The session and the error when the result handler is called. */
  function Login(s: Session, a: LoginAnswers): Result {
    var r := Attempt(s, a);
    if r.error.Some? then Reset(r.s, a.finalReset, r.error) else r
  }

  /** The logged in user is the device owner, or a known guest who is active. */
  predicate UserAuthorised(s: Session) {
    && s.ctx.ownerUserID.Some?
    && (s.ctx.loggedInUserID == s.ctx.ownerUserID.value
        || (s.ctx.loggedInUserName in s.ctx.guests && s.ctx.guests[s.ctx.loggedInUserName].active))
  }

  /** The device context has let the user in. */
  predicate LetIn(s: Session, a: LoginAnswers) {
    var r := GetToken(s, false, a.login);
    r.error == None && r.s.ctx.ownerUserID.Some? && a.auth.parsed && Update(r.s.ctx, a.auth.update).error == None
  }

  /** The user asked for access and the request was taken. */
  predicate AccessRequested(s: Session, a: LoginAnswers) {
    var r := GetToken(s, false, a.login);
    && r.error == None && r.s.ctx.ownerUserID.Some? && a.auth.parsed
    && Update(r.s.ctx, a.auth.update).error == Some(UNAUTHORIZED)
    && a.auth.requestAccess && a.auth.userAdded
    && (r.s.ctx.loggedInUserName in Update(r.s.ctx, a.auth.update).ctx.guests || a.auth.guestMade)
  }

  lemma UpdateKeepsUser(ctx: Context, a: Answer)
    ensures var c := Update(ctx, a).ctx;
            && c.ownerUserID == ctx.ownerUserID
            && c.loggedInUserID == ctx.loggedInUserID && c.loggedInUserName == ctx.loggedInUserName
  {
  }

  lemma LetInIsAuthorised(s: Session, a: LoginAnswers)
    requires LetIn(s, a)
    ensures UserAuthorised(Login(s, a).s)
    ensures Login(s, a).error == None ==> Login(s, a).s.token == a.login.token
  {
    var ctx := GetToken(s, false, a.login).s.ctx;
    SuccessMeansAuthorised(ctx, a.auth.update);
    UpdateKeepsUser(ctx, a.auth.update);
  }

  /** When not let in, no error means that access was requested. */
  lemma NotLetIn(s: Session, a: LoginAnswers)
    requires !LetIn(s, a)
    ensures Login(s, a).error == None <==> AccessRequested(s, a)
    ensures Login(s, a).error.Some? ==> (Login(s, a).s.token.Some? ==> !a.finalReset)
  {
    var ctx := GetToken(s, false, a.login).s.ctx;
    UpdateKeepsUser(ctx, a.auth.update);
  }

  lemma AccessRequestedState(s: Session, a: LoginAnswers)
    requires AccessRequested(s, a)
    ensures var r := Login(s, a);
            && r.error == None && r.s.token == (if a.auth.contextReset then None else a.login.token)
            && r.s.ctx.loggedInUserName in r.s.ctx.guests && !r.s.ctx.guests[r.s.ctx.loggedInUserName].active
            && r.s.ctx.ownerUserID == s.ctx.ownerUserID
            && a.login.token.Some? && r.s.ctx.loggedInUserID == a.login.token.value.userID
  {
    var ctx := GetToken(s, false, a.login).s.ctx;
    UpdateKeepsUser(ctx, a.auth.update);
  }

  /** The guest on whose behalf access was requested: a known one is made
      inactive, and a new one has the user's ID and name and nothing else. */
  lemma RequestedGuest(s: Session, a: LoginAnswers)
    requires AccessRequested(s, a)
    ensures var before := Update(GetToken(s, false, a.login).s.ctx, a.auth.update).ctx.guests;
            var after, user := Login(s, a).s.ctx.guests, a.login.token.value;
            && after.Keys == before.Keys + {user.userName}
            && (forall name | name in before && name != user.userName :: after[name] == before[name])
            && var g := after[user.userName];
            && !g.active
            && (user.userName in before ==> g.(active := before[user.userName].active) == before[user.userName])
            && (user.userName !in before ==>
                  g.userID == user.userID && g.firstName == g.middleName == g.familyName == "")
  {
    UpdateKeepsUser(GetToken(s, false, a.login).s.ctx, a.auth.update);
  }

  /** Login fails closed: if every reset of the auth context succeeds, a token
      that is still held when the handler is called means that there is no error
      and that the user is the owner or an active guest; and the token is held
      exactly when the user was let in and no later step failed. */
  lemma FailsClosed(s: Session, a: LoginAnswers)
    requires a.auth.contextReset && a.finalReset
    ensures var r := Login(s, a);
            && (r.s.token.Some? ==> r.error == None && UserAuthorised(r.s))
            && (r.s.token.Some? <==> LetIn(s, a) && r.error == None)
  {
    if LetIn(s, a) {
      LetInIsAuthorised(s, a);
    } else {
      NotLetIn(s, a);
      if AccessRequested(s, a) { AccessRequestedState(s, a); }
    }
  }

  /** Without that assumption: the handler sees no error and a token of a user
      who is not authorised exactly when a user other than the owner requested
      access and the reset that follows failed. */
  lemma UnauthorisedTokenIff(s: Session, a: LoginAnswers)
    ensures var r := Login(s, a);
            r.error == None && r.s.token.Some? && !UserAuthorised(r.s)
            <==> && AccessRequested(s, a) && !a.auth.contextReset
                 && Some(a.login.token.value.userID) != s.ctx.ownerUserID
  {
    if AccessRequested(s, a) {
      AccessRequestedState(s, a);
    } else if LetIn(s, a) {
      LetInIsAuthorised(s, a);
    } else {
      NotLetIn(s, a);
    }
  }

  /** It happens: a user who is not the owner asks for access, the request is
      taken, and the reset fails. */
  lemma UnauthorisedTokenKept(deviceID: string, ownerUserID: string, token: Token)
    returns (s: Session, a: LoginAnswers)
    requires token.userID != ownerUserID
    ensures var r := Login(s, a); r.error == None && r.s.token == Some(token) && !UserAuthorised(r.s)
  {
    var ctx := Context(Some(Device(deviceID, [], [])), Some(ownerUserID), [], [], map[], []);
    s := Session(None, ctx, false, None, 0);
    var update := AuthDevice(UNAUTHORIZED, deviceID, [], [], [], []);
    a := LoginAnswers(TokenAnswers(true, Some(token), true, true, true),
                      AuthorizeAnswers(true, update, true, true, true, false, false, false, false, false), true);
    var r := GetToken(s, false, a.login);
    assert Update(r.s.ctx, update) == Updated(r.s.ctx, Some(UNAUTHORIZED));
    assert AccessRequested(s, a);
    UnauthorisedTokenIff(s, a);
    AccessRequestedState(s, a);
  }

  /** The user was let in, and is not the owner or has the owner's key and a
      target context that is up to date. */
  predicate Completed(s: Session, a: LoginAnswers) {
    && LetIn(s, a)
    && (Some(a.login.token.value.userID) == s.ctx.ownerUserID ==>
          && (s.ownerKey || a.auth.keyLoaded)
          && (s.targets.Some? && s.configAsOf < a.login.token.value.configTimestamp ==>
                a.auth.configRead && a.auth.targetsReset && a.auth.targetsLoaded))
  }

  /** The device context refused the user, and no access was requested. */
  predicate TurnedAway(s: Session, a: LoginAnswers) {
    var r := GetToken(s, false, a.login);
    && r.error == None && r.s.ctx.ownerUserID.Some? && a.auth.parsed
    && var error := Update(r.s.ctx, a.auth.update).error;
    error.Some? && (error != Some(UNAUTHORIZED) || !a.auth.requestAccess)
  }

  /** A token is still held together with an error exactly when the final reset
      failed, the login had got a token, it was neither completed nor ended with
      an access request, and no earlier reset succeeded, which there is when the
      user is turned away. */
  lemma TokenWithErrorIff(s: Session, a: LoginAnswers)
    ensures Login(s, a).error == None <==> Completed(s, a) || AccessRequested(s, a)
    ensures Login(s, a).error.Some? && Login(s, a).s.token.Some?
            <==> && !a.finalReset && a.login.token.Some?
                 && !Completed(s, a) && !AccessRequested(s, a) && !(TurnedAway(s, a) && a.auth.contextReset)
  {
    var r := GetToken(s, false, a.login);
    if r.error == None && r.s.ctx.ownerUserID.Some? && a.auth.parsed {
      AuthorizeUpdates(r.s, a.auth, r.s.ctx.ownerUserID.value);
    }
  }

  // ---------------------------------------------------------------------
  // Configuration sync.

  /** config-as-of moves only forward, to the token's timestamp, and only when
      the sync and the whole login succeed. */
  lemma ConfigAsOfMovesForward(s: Session, a: LoginAnswers)
    ensures var r := Login(s, a);
            && r.s.configAsOf >= s.configAsOf
            && (r.s.configAsOf != s.configAsOf ==>
                  && r.error == None && r.s.token.Some? && r.s.token == a.login.token
                  && r.s.configAsOf == a.login.token.value.configTimestamp
                  && r.s.targets == Some(Synced(r.s.configAsOf)))
            && (r.error.Some? ==> r.s.configAsOf == s.configAsOf)
  {
  }

  /** A login of the owner that succeeds has the owner's key, and a target
      context that is at least as new as the token says. */
  lemma OwnerLoginSyncs(s: Session, a: LoginAnswers)
    requires LetIn(s, a) && Login(s, a).error == None
    requires Some(a.login.token.value.userID) == s.ctx.ownerUserID
    ensures var r, t := Login(s, a).s, a.login.token.value.configTimestamp;
            && r.ownerKey
            && (s.targets.Some? ==> r.configAsOf == if s.configAsOf < t then t else s.configAsOf)
            && (s.targets.Some? ==> r.targets == if s.configAsOf < t then Some(Synced(t)) else s.targets)
            && (s.targets == None ==> r.targets == None && r.configAsOf == s.configAsOf)
  {
    UpdateKeepsUser(GetToken(s, false, a.login).s.ctx, a.auth.update);
  }

  function Logins(s: Session, as_: seq<LoginAnswers>): Session {
    if as_ == [] then s else Login(Logins(s, as_[..|as_| - 1]), as_[|as_| - 1]).s
  }

  /** What the target context holds is never newer than config-as-of says: it
      was loaded at exactly that time, or it is as it was, or a failed sync has
      emptied it. */
  predicate TargetsMatch(s: Session) {
    s.targets.Some? && s.targets.value.Synced? ==> s.targets.value.asOf == s.configAsOf
  }

  lemma LoginKeepsTargetsMatch(s: Session, a: LoginAnswers)
    requires TargetsMatch(s)
    ensures TargetsMatch(Login(s, a).s)
  {
  }

  lemma {:induction false} LoginsMoveForward(s: Session, as_: seq<LoginAnswers>)
    requires TargetsMatch(s)
    ensures Logins(s, as_).configAsOf >= s.configAsOf && TargetsMatch(Logins(s, as_))
  {
    if as_ != [] {
      var before := Logins(s, as_[..|as_| - 1]);
      LoginsMoveForward(s, as_[..|as_| - 1]);
      ConfigAsOfMovesForward(before, as_[|as_| - 1]);
      LoginKeepsTargetsMatch(before, as_[|as_| - 1]);
    }
  }

  /** The owner is let in with a key, and the target context is older than the
      token says. */
  predicate MustSync(s: Session, a: LoginAnswers) {
    && LetIn(s, a) && Some(a.login.token.value.userID) == s.ctx.ownerUserID
    && (s.ownerKey || a.auth.keyLoaded)
    && s.targets.Some? && s.configAsOf < a.login.token.value.configTimestamp
  }

  /** What a login leaves of the target context: a sync loads it, one that fails
      after its reset leaves it emptied, and nothing else changes it. */
  lemma TargetsExact(s: Session, a: LoginAnswers)
    ensures var r := Login(s, a);
            var emptied := MustSync(s, a) && a.auth.configRead && a.auth.targetsReset;
            && (emptied && a.auth.targetsLoaded ==> r.s.targets == Some(Synced(a.login.token.value.configTimestamp)))
            && (emptied && !a.auth.targetsLoaded ==> r.s.targets == Some(Emptied))
            && (!emptied ==> r.s.targets == s.targets)
            && (MustSync(s, a) ==>
                  (r.error == Some(SyncFailed) <==> !(emptied && a.auth.targetsLoaded)))
  {
    var r := GetToken(s, false, a.login);
    if r.error == None && r.s.ctx.ownerUserID.Some? && a.auth.parsed {
      AuthorizeUpdates(r.s, a.auth, r.s.ctx.ownerUserID.value);
    }
  }

  /** The device context was asked about the user. */
  predicate Asked(s: Session, a: LoginAnswers) {
    GetToken(s, false, a.login).error == None && s.ctx.ownerUserID.Some? && a.auth.parsed
  }

  /** With which error a login ends that is refused, by its answers. */
  lemma RefusalExact(s: Session, a: LoginAnswers)
    ensures var e, r := Login(s, a).error, GetToken(s, false, a.login);
            var refusal := Update(r.s.ctx, a.auth.update).error;
            && (e == Some(LoginFailed) <==> r.error.Some?)
            && (e == Some(NoOwner) <==> r.error == None && s.ctx.ownerUserID == None)
            && (e == Some(BadToken) <==> r.error == None && s.ctx.ownerUserID.Some? && !a.auth.parsed)
            && (forall reason ::
                  e == Some(Refused(reason)) <==> Asked(s, a) && refusal == Some(reason) && reason != UNAUTHORIZED)
            && (e == Some(RequestDeclined) <==>
                  Asked(s, a) && refusal == Some(UNAUTHORIZED) && !a.auth.requestAccess)
            && (e == Some(RequestFailed) <==>
                  Asked(s, a) && refusal == Some(UNAUTHORIZED) && a.auth.requestAccess && !AccessRequested(s, a))
  {
    var r := GetToken(s, false, a.login);
    if Asked(s, a) { AuthorizeUpdates(r.s, a.auth, r.s.ctx.ownerUserID.value); }
  }

  /** With which error the login of an owner ends who was let in. */
  lemma OwnerErrorExact(s: Session, a: LoginAnswers)
    ensures var e := Login(s, a).error;
            && (e == Some(NoOwnerKey) <==>
                  && LetIn(s, a) && Some(a.login.token.value.userID) == s.ctx.ownerUserID
                  && !s.ownerKey && !a.auth.keyLoaded)
            && (e == Some(SyncFailed) <==>
                  MustSync(s, a) && !(a.auth.configRead && a.auth.targetsReset && a.auth.targetsLoaded))
  {
    var r := GetToken(s, false, a.login);
    if Asked(s, a) { AuthorizeUpdates(r.s, a.auth, r.s.ctx.ownerUserID.value); }
  }

  // ---------------------------------------------------------------------
  // Who becomes a guest.

  /** The login asked for access on behalf of this user. */
  predicate Requests(a: LoginAnswers, name: string, userID: string) {
    && a.auth.requestAccess && a.auth.guestMade
    && a.login.token.Some? && a.login.token.value.userName == name && a.login.token.value.userID == userID
  }

  /** The guest was known in `s`, or one of the logins asked for access. */
  ghost predicate Invited(s: Session, as_: seq<LoginAnswers>, name: string, userID: string) {
    || (name in s.ctx.guests && s.ctx.guests[name].userID == userID)
    || exists i :: 0 <= i < |as_| && Requests(as_[i], name, userID)
  }

  /** What follows the device update touches at most the user who asks. */
  lemma AfterUpdateGuests(s: Session, token: Token, ownerUserID: string, error: Option<string>, a: AuthorizeAnswers)
    ensures var c := AfterUpdate(s, token, ownerUserID, error, a).s.ctx;
            && c == s.ctx.(guests := c.guests)
            && forall name | name in c.guests ::
                 || (name in s.ctx.guests && s.ctx.guests[name].userID == c.guests[name].userID)
                 || (a.requestAccess && a.guestMade && name == token.userName
                     && c.guests[name].userID == token.userID && !c.guests[name].active)
  {
  }

  /** One update and what follows it: guests are old ones or the user who
      asked, who is not active then; devices are the old ones. */
  lemma AuthorizeGuests(s: Session, a: AuthorizeAnswers)
    requires s.token.Some?
    ensures var c := Authorize(s, a).s.ctx;
            && c.ownerUserID == s.ctx.ownerUserID
            && multiset(DeviceIDs(c.managed)) <= multiset(DeviceIDs(s.ctx.managed))
            && forall name | name in c.guests ::
                 || (name in s.ctx.guests && s.ctx.guests[name].userID == c.guests[name].userID)
                 || (a.requestAccess && a.guestMade && name == s.token.value.userName
                     && c.guests[name].userID == s.token.value.userID && !c.guests[name].active)
  {
    if s.ctx.ownerUserID.Some? && a.parsed {
      var updated := Update(s.ctx, a.update);
      UpdateShrinks(s.ctx, a.update);
      AfterUpdateGuests(s.(ctx := updated.ctx), s.token.value, s.ctx.ownerUserID.value, updated.error, a);
    }
  }

  /** Nothing but the authorisation changes guests and devices. */
  lemma LoginContext(s: Session, a: LoginAnswers)
    ensures var r := GetToken(s, false, a.login);
            && Login(s, a).s.ctx == (if r.error == None then Authorize(r.s, a.auth).s.ctx else r.s.ctx)
            && r.s.ctx == s.ctx.(loggedInUserID := r.s.ctx.loggedInUserID, loggedInUserName := r.s.ctx.loggedInUserName)
  {
  }

  lemma LoginGuests(s: Session, a: LoginAnswers)
    ensures var c := Login(s, a).s.ctx;
            && c.ownerUserID == s.ctx.ownerUserID
            && multiset(DeviceIDs(c.managed)) <= multiset(DeviceIDs(s.ctx.managed))
            && forall name | name in c.guests ::
                 || (name in s.ctx.guests && s.ctx.guests[name].userID == c.guests[name].userID)
                 || (Requests(a, name, c.guests[name].userID) && !c.guests[name].active)
  {
    LoginContext(s, a);
    var r := GetToken(s, false, a.login);
    if r.error == None {
      AuthorizeGuests(r.s, a.auth);
    }
  }

  /** Over any run of logins the owner stays, managed devices only disappear, and
      every guest was known at the start or is a user for whom a login requested
      access. */
  lemma {:induction false} LoginsInventNoOne(s: Session, as_: seq<LoginAnswers>)
    ensures var c := Logins(s, as_).ctx;
            && c.ownerUserID == s.ctx.ownerUserID
            && multiset(DeviceIDs(c.managed)) <= multiset(DeviceIDs(s.ctx.managed))
            && forall name | name in c.guests :: Invited(s, as_, name, c.guests[name].userID)
  {
    if as_ != [] {
      var n := |as_| - 1;
      var before := Logins(s, as_[..n]);
      LoginsInventNoOne(s, as_[..n]);
      LoginGuests(before, as_[n]);
      var c := Logins(s, as_).ctx;
      forall name | name in c.guests ensures Invited(s, as_, name, c.guests[name].userID) {
        if name in before.ctx.guests && before.ctx.guests[name].userID == c.guests[name].userID {
          assert Invited(s, as_[..n], name, c.guests[name].userID);
        } else {
          assert Requests(as_[n], name, c.guests[name].userID);
        }
      }
    }
  }
}
