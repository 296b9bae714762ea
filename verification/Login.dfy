/** Login and device authorisation (auth/auth.go) on the application's
    configuration object and its shared device context. */
module LoginClass {
  import opened Outcomes
  import opened DeviceModel
  import opened DeviceContextClass
  import opened LoginModel

  class AppConfig {
    var token: Option<Token>
    const deviceContext: DeviceContext
    var ownerKey: bool
    var targets: Option<Targets>
    var configAsOf: int

    constructor (deviceContext: DeviceContext, targets: Option<Targets>, configAsOf: int)
      ensures this.deviceContext == deviceContext
      ensures token == None && !ownerKey && this.targets == targets && this.configAsOf == configAsOf
    {
      this.deviceContext := deviceContext;
      token, ownerKey := None, false;
      this.targets, this.configAsOf := targets, configAsOf;
    }

    /** The session has these values, apart from the device context. */
    ghost predicate HasFields(s: Session) reads this {
      s.token == token && s.ownerKey == ownerKey && s.targets == targets && s.configAsOf == configAsOf
    }

    ghost predicate Is(s: Session)
      reads this, deviceContext, deviceContext.guestUsers.Values, deviceContext.managedDevices, deviceContext.device
    {
      HasFields(s) && deviceContext.Is(s.ctx)
    }

    /** authContext.Reset(). */
    method ResetAuth(ok: bool)
      modifies this`token
      ensures token == if ok then None else old(token)
    {
      if ok {
        token := None;
      }
    }

    /** The reset, with what it leaves. */
    method ResetAuthOf(ghost s: Session, ok: bool)
      requires deviceContext.Valid() && Is(s)
      modifies this`token
      ensures deviceContext.Valid() && Is(LoginModel.Reset(s, ok, None).s)
    {
      ResetAuth(ok);
    }

    method GetAuthenticatedToken(forceLogin: bool, a: TokenAnswers, ghost s: Session) returns (error: Option<AuthError>)
      requires Is(s)
      modifies this`token, deviceContext`loggedInUserID, deviceContext`loggedInUserName
      ensures Is(GetToken(s, forceLogin, a).s) && error == GetToken(s, forceLogin, a).error
    {
      if forceLogin {
        if !a.reset {
          return Some(LoginFailed);
        }
        ResetAuth(true);
      }
      token := a.token;
      if !a.authenticated || a.token == None || !a.parsed || !a.userSet {
        return Some(LoginFailed);
      }
      deviceContext.SetLoggedInUser(token.value.userID, token.value.userName, s.ctx);
      error := None;
    }

    /** Access is requested for the user. */
    method RequestAccess(a: AuthorizeAnswers, ghost s: Session) returns (err: Option<AuthError>)
      requires deviceContext.Valid() && Is(s) && token.Some?
      modifies deviceContext`guestUsers, deviceContext.guestUsers.Values`active
      ensures deviceContext.Valid()
      ensures var r := LoginModel.RequestAccess(s, token.value, a); Is(r.s) && err == r.error
    {
      var userName := token.value.userName;
      if userName !in deviceContext.guestUsers {
        if !a.guestMade {
          return Some(RequestFailed);
        }
        deviceContext.NewGuestUser(token.value.userID, userName, s.ctx);
      } else {
        deviceContext.SetGuestActive(userName, false, s.ctx);
      }
      err := if a.userAdded then None else Some(RequestFailed);
    }

    /** The branch taken when UpdateDeviceContext returns `error`. */
    method HandleUnauthorised(error: string, a: AuthorizeAnswers, ghost s: Session) returns (err: Option<AuthError>)
      requires deviceContext.Valid() && Is(s) && token.Some?
      modifies this`token, deviceContext`guestUsers, deviceContext.guestUsers.Values`active
      ensures deviceContext.Valid()
      ensures var r := Unauthorised(s, old(token).value, error, a); Is(r.s) && err == r.error
    {
      ghost var now := s;
      if error == UNAUTHORIZED && a.requestAccess {
        now := LoginModel.RequestAccess(s, token.value, a).s;
        err := RequestAccess(a, s);
        if err.Some? {
          return;
        }
      } else {
        err := Some(if error == UNAUTHORIZED then RequestDeclined else Refused(error));
      }
      ResetAuthOf(now, a.contextReset);
    }

    /** The branch taken for the owner. */
    method AuthorizeAsOwner(a: AuthorizeAnswers, ghost s: Session) returns (err: Option<AuthError>)
      requires HasFields(s) && token.Some?
      modifies this`ownerKey, this`targets, this`configAsOf
      ensures var r := AuthorizeOwner(s, token.value, a); HasFields(r.s) && err == r.error
    {
      if !ownerKey {
        if !a.keyLoaded {
          return Some(NoOwnerKey);
        }
        ownerKey := true;
      }
      if targets.Some? {
        if configAsOf < token.value.configTimestamp {
          if !a.configRead {
            return Some(SyncFailed);
          }
          if !a.targetsReset {
            return Some(SyncFailed);
          }
          targets := Some(Emptied);
          if !a.targetsLoaded {
            return Some(SyncFailed);
          }
          targets := Some(Synced(token.value.configTimestamp));
          configAsOf := token.value.configTimestamp;
        }
      }
      err := None;
    }

    method FinishAuthorize(ownerUserID: string, authErr: Option<string>, a: AuthorizeAnswers, ghost s: Session)
      returns (err: Option<AuthError>)
      requires deviceContext.Valid() && Is(s) && token.Some?
      modifies this, deviceContext`guestUsers, deviceContext.guestUsers.Values`active
      ensures deviceContext.Valid()
      ensures var r := AfterUpdate(s, old(token).value, ownerUserID, authErr, a); Is(r.s) && err == r.error
    {
      if authErr.Some? {
        err := HandleUnauthorised(authErr.value, a, s);
      } else if token.value.userID == ownerUserID {
        err := AuthorizeAsOwner(a, s);
      } else {
        err := None;
      }
    }

    method UpdateAndAuthorize(a: AuthorizeAnswers, ownerUserID: string, ghost s: Session)
      returns (err: Option<AuthError>)
      requires deviceContext.Valid() && Is(s) && token.Some? && a.parsed && s.ctx.ownerUserID == Some(ownerUserID)
      modifies this, deviceContext, deviceContext.guestUsers.Values, deviceContext.managedDevices, deviceContext.device
      ensures deviceContext.Valid()
      ensures Is(Authorize(s, a).s) && err == Authorize(s, a).error
    {
      var authErr := deviceContext.UpdateDeviceContext(a.update, s.ctx);
      AuthorizeUpdates(s, a, ownerUserID);
      ghost var updated := s.(ctx := Update(s.ctx, a.update).ctx);
      assert Is(updated);
      err := FinishAuthorize(ownerUserID, authErr, a, updated);
    }

    method AuthorizeDeviceAndUser(a: AuthorizeAnswers, ghost s: Session) returns (err: Option<AuthError>)
      requires deviceContext.Valid() && Is(s) && token.Some?
      modifies this, deviceContext, deviceContext.guestUsers.Values, deviceContext.managedDevices, deviceContext.device
      ensures deviceContext.Valid()
      ensures Is(Authorize(s, a).s) && err == Authorize(s, a).error
    {
      if deviceContext.owner == null {
        return Some(NoOwner);
      }
      if !a.parsed {
        return Some(BadToken);
      }
      err := UpdateAndAuthorize(a, deviceContext.owner.userID, s);
    }

    method TryLogin(a: LoginAnswers, ghost s: Session) returns (err: Option<AuthError>)
      requires deviceContext.Valid() && Is(s)
      modifies this, deviceContext, deviceContext.guestUsers.Values, deviceContext.managedDevices, deviceContext.device
      ensures deviceContext.Valid()
      ensures Is(Attempt(s, a).s) && err == Attempt(s, a).error
    {
      err := GetAuthenticatedToken(false, a.login, s);
      if err == None {
        err := AuthorizeDeviceAndUser(a.auth, GetToken(s, false, a.login).s);
      }
    }

    /** What holds when the result handler is called with `err`. */
    method Login(a: LoginAnswers, ghost s: Session) returns (err: Option<AuthError>)
      requires deviceContext.Valid() && Is(s)
      modifies this, deviceContext, deviceContext.guestUsers.Values, deviceContext.managedDevices, deviceContext.device
      ensures deviceContext.Valid()
      ensures Is(LoginModel.Login(s, a).s) && err == LoginModel.Login(s, a).error
    {
      err := TryLogin(a, s);
      if err.Some? {
        ResetAuth(a.finalReset);
      }
    }
  }
}
