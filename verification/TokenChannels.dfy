/** The result channels of a login (auth/auth.go) and the hand-over from the
    first to the second login of an owner reset (config/initializer.go), as
    threads that interleave in any order. */
module TokenChannels {

  /** A channel of capacity 1, by what was done with it. */
  datatype Chan = Chan(sent: nat, received: nat, closes: nat)

  const NEW_CHAN := Chan(0, 0, 0)

  /** The goroutine of Authenticate has put its answer into the channel, or
      not; Authenticate itself does so when no goroutine is needed. */
  datatype AuthPc = Authenticating | Answered

  /** The goroutine of GetAuthenticatedToken; None when the reset of a forced
      login failed and the error was put into the token channel at once. */
  datatype TokenPc = AwaitingAuth | GotAuth | TokenSent | AuthClosed | NoGoroutine

  datatype Pipe = Pipe(auth: Chan, token: Chan, authPc: AuthPc, tokenPc: TokenPc)

  /** The goroutine that asks for tokens: about to begin login n, waiting for
      its token, holding it, or at its end. */
  datatype ConsumerPc = Beginning(n: nat) | Waiting(n: nat) | Holding(n: nat) | Finished

  /** `logins` are at most so many logins in a row: one for Login, two for an
      owner reset. `fault` records a send on or a close of a closed channel, a
      send that does not fit, and a receive of something that nobody sent. */
  datatype System = System(pipes: seq<Pipe>, consumer: ConsumerPc, logins: nat, fault: bool)

  datatype Action =
    | Begin(resetFails: bool) | AuthSend(i: nat) | AuthRecv(i: nat) | TokenSend(i: nat) | AuthClose(i: nat)
    | TokenRecv | TokenClose(goOn: bool)

  function Send(c: Chan): Chan { c.(sent := c.sent + 1) }
  function Recv(c: Chan): Chan { c.(received := c.received + 1) }
  function Close(c: Chan): Chan { c.(closes := c.closes + 1) }

  predicate SendFault(c: Chan) { c.closes > 0 || c.sent > c.received }
  predicate RecvReady(c: Chan) { c.sent > c.received || c.closes > 0 }
  predicate RecvFault(c: Chan) { c.sent <= c.received }
  predicate CloseFault(c: Chan) { c.closes > 0 }

  function Init(logins: nat): System {
    System([], if logins == 0 then Finished else Beginning(0), logins, false)
  }

  predicate Enabled(s: System, a: Action) {
    match a
    case Begin(_) => s.consumer.Beginning? && s.consumer.n == |s.pipes| < s.logins
    case AuthSend(i) => i < |s.pipes| && s.pipes[i].authPc == Authenticating && s.pipes[i].tokenPc != NoGoroutine
    case AuthRecv(i) => i < |s.pipes| && s.pipes[i].tokenPc == AwaitingAuth && RecvReady(s.pipes[i].auth)
    case TokenSend(i) => i < |s.pipes| && s.pipes[i].tokenPc == GotAuth
    case AuthClose(i) => i < |s.pipes| && s.pipes[i].tokenPc == TokenSent
    case TokenRecv => s.consumer.Waiting? && s.consumer.n < |s.pipes| && RecvReady(s.pipes[s.consumer.n].token)
    case TokenClose(goOn) =>
      s.consumer.Holding? && s.consumer.n < |s.pipes| && (goOn ==> s.consumer.n + 1 < s.logins)
  }

  function Put(s: System, i: nat, p: Pipe, fault: bool): System
    requires i < |s.pipes|
  {
    s.(pipes := s.pipes[i := p], fault := s.fault || fault)
  }

  function Step(s: System, a: Action): System
    requires Enabled(s, a)
  {
    match a
    case Begin(resetFails) =>
      s.(pipes := s.pipes + [if resetFails then Pipe(NEW_CHAN, Send(NEW_CHAN), Authenticating, NoGoroutine)
                             else Pipe(NEW_CHAN, NEW_CHAN, Authenticating, AwaitingAuth)],
         consumer := Waiting(s.consumer.n))
    case AuthSend(i) =>
      var p := s.pipes[i];
      Put(s, i, p.(auth := Send(p.auth), authPc := Answered), SendFault(p.auth))
    case AuthRecv(i) =>
      var p := s.pipes[i];
      Put(s, i, p.(auth := Recv(p.auth), tokenPc := GotAuth), RecvFault(p.auth))
    case TokenSend(i) =>
      var p := s.pipes[i];
      Put(s, i, p.(token := Send(p.token), tokenPc := TokenSent), SendFault(p.token))
    case AuthClose(i) =>
      var p := s.pipes[i];
      Put(s, i, p.(auth := Close(p.auth), tokenPc := AuthClosed), CloseFault(p.auth))
    case TokenRecv =>
      var i := s.consumer.n;
      var p := s.pipes[i];
      Put(s, i, p.(token := Recv(p.token)), RecvFault(p.token)).(consumer := Holding(i))
    case TokenClose(goOn) =>
      var i := s.consumer.n;
      var p := s.pipes[i];
      Put(s, i, p.(token := Close(p.token)), CloseFault(p.token)).(
        consumer := if goOn then Beginning(i + 1) else Finished)
  }

  function One(b: bool): nat { if b then 1 else 0 }

  /** Where the threads of a login are fixes what happened to its channels;
      `got` and `shut`: the consumer has received the token, closed the channel. */
  predicate PipeOk(p: Pipe, got: bool, shut: bool) {
    && p.auth.sent == One(p.authPc == Answered)
    && p.auth.received == One(p.tokenPc.GotAuth? || p.tokenPc.TokenSent? || p.tokenPc.AuthClosed?)
    && p.auth.received <= p.auth.sent
    && p.auth.closes == One(p.tokenPc.AuthClosed?)
    && p.token.sent == One(p.tokenPc.TokenSent? || p.tokenPc.AuthClosed? || p.tokenPc.NoGoroutine?)
    && p.token.received == One(got) && p.token.received <= p.token.sent
    && p.token.closes == One(shut) && (shut ==> got)
  }

  predicate Got(s: System, i: nat) {
    match s.consumer
    case Beginning(n) => i < n
    case Waiting(n) => i < n
    case Holding(n) => i <= n
    case Finished => true
  }

  predicate Shut(s: System, i: nat) {
    match s.consumer
    case Beginning(n) => i < n
    case Waiting(n) => i < n
    case Holding(n) => i < n
    case Finished => true
  }

  predicate Inv(s: System) {
    && !s.fault && |s.pipes| <= s.logins
    && (s.consumer.Beginning? ==> |s.pipes| == s.consumer.n < s.logins)
    && (s.consumer.Waiting? || s.consumer.Holding? ==> |s.pipes| == s.consumer.n + 1)
    && forall i | 0 <= i < |s.pipes| :: PipeOk(s.pipes[i], Got(s, i), Shut(s, i))
  }

  /** A step of the threads of login i leaves the other logins alone. */
  lemma PutInv(s: System, i: nat, p: Pipe)
    requires Inv(s) && i < |s.pipes| && PipeOk(p, Got(s, i), Shut(s, i))
    ensures Inv(Put(s, i, p, false))
  {
    var t := Put(s, i, p, false);
    forall j | 0 <= j < |t.pipes| ensures PipeOk(t.pipes[j], Got(t, j), Shut(t, j)) {
      assert PipeOk(s.pipes[j], Got(s, j), Shut(s, j));
    }
  }

  lemma ThreadInv(s: System, a: Action)
    requires Inv(s) && Enabled(s, a) && (a.AuthSend? || a.AuthRecv? || a.TokenSend? || a.AuthClose?)
    ensures Inv(Step(s, a))
  {
    assert PipeOk(s.pipes[a.i], Got(s, a.i), Shut(s, a.i));
    PutInv(s, a.i, Step(s, a).pipes[a.i]);
  }

  lemma ConsumerInv(s: System, a: Action)
    requires Inv(s) && Enabled(s, a) && (a.Begin? || a.TokenRecv? || a.TokenClose?)
    ensures Inv(Step(s, a))
  {
    var t := Step(s, a);
    forall i | 0 <= i < |t.pipes| ensures PipeOk(t.pipes[i], Got(t, i), Shut(t, i)) {
      if i < |s.pipes| { assert PipeOk(s.pipes[i], Got(s, i), Shut(s, i)); }
    }
  }

  lemma StepInv(s: System, a: Action)
    requires Inv(s) && Enabled(s, a)
    ensures Inv(Step(s, a))
  {
    if a.Begin? || a.TokenRecv? || a.TokenClose? { ConsumerInv(s, a); } else { ThreadInv(s, a); }
  }

  predicate Legal(s: System, schedule: seq<Action>)
    decreases |schedule|
  {
    schedule == [] || (Enabled(s, schedule[0]) && Legal(Step(s, schedule[0]), schedule[1..]))
  }

  function Run(s: System, schedule: seq<Action>): System
    requires Legal(s, schedule)
    decreases |schedule|
  {
    if schedule == [] then s else Run(Step(s, schedule[0]), schedule[1..])
  }

  lemma {:induction false} RunInv(s: System, schedule: seq<Action>)
    requires Inv(s) && Legal(s, schedule)
    ensures Inv(Run(s, schedule)) && Run(s, schedule).logins == s.logins
    decreases |schedule|
  {
    if schedule != [] {
      StepInv(s, schedule[0]);
      RunInv(Step(s, schedule[0]), schedule[1..]);
    }
  }

  /** In every interleaving no channel is misused, a token channel carries at
      most one value and is closed at most once and only after its receive; when
      the consumer has ended, each was used in full. */
  lemma ChannelProtocol(logins: nat, schedule: seq<Action>)
    requires Legal(Init(logins), schedule)
    ensures var s := Run(Init(logins), schedule);
            && !s.fault
            && (forall i | 0 <= i < |s.pipes| ::
                  var c := s.pipes[i].token;
                  c.sent <= 1 && c.received <= c.sent && c.closes <= c.received)
            && (s.consumer == Finished ==> forall i | 0 <= i < |s.pipes| :: s.pipes[i].token == Chan(1, 1, 1))
  {
    RunInv(Init(logins), schedule);
    var s := Run(Init(logins), schedule);
    forall i | 0 <= i < |s.pipes|
      ensures var c := s.pipes[i].token; c.sent <= 1 && c.received <= c.sent && c.closes <= c.received
      ensures s.consumer == Finished ==> s.pipes[i].token == Chan(1, 1, 1)
    {
      assert PipeOk(s.pipes[i], Got(s, i), Shut(s, i));
    }
  }

  /** No interleaving blocks: until the consumer has ended some thread can go on,
      and so can the threads of a login until its auth channel is used up. */
  lemma NeverStuck(logins: nat, schedule: seq<Action>)
    requires Legal(Init(logins), schedule)
    ensures var s := Run(Init(logins), schedule);
            && (s.consumer != Finished ==> exists a :: Enabled(s, a))
            && (forall i | && 0 <= i < |s.pipes| && s.pipes[i].tokenPc != NoGoroutine
                           && s.pipes[i].auth != Chan(1, 1, 1) ::
                  || Enabled(s, AuthSend(i)) || Enabled(s, AuthRecv(i))
                  || Enabled(s, TokenSend(i)) || Enabled(s, AuthClose(i)))
  {
    RunInv(Init(logins), schedule);
    var s := Run(Init(logins), schedule);
    forall i | 0 <= i < |s.pipes| && s.pipes[i].tokenPc != NoGoroutine && s.pipes[i].auth != Chan(1, 1, 1)
      ensures Enabled(s, AuthSend(i)) || Enabled(s, AuthRecv(i)) || Enabled(s, TokenSend(i)) || Enabled(s, AuthClose(i))
    {
      assert PipeOk(s.pipes[i], Got(s, i), Shut(s, i));
    }
    match s.consumer {
      case Beginning(_) => assert Enabled(s, Begin(false));
      case Waiting(n) =>
        assert PipeOk(s.pipes[n], Got(s, n), Shut(s, n));
        if s.pipes[n].token.sent == 1 { assert Enabled(s, TokenRecv); }
      case Holding(_) => assert Enabled(s, TokenClose(false));
      case Finished =>
    }
  }

  /** What was done for a login: its begin, and each use of its channels but the
      answer that a failed reset puts into the token channel at once. */
  function Used(p: Pipe): nat {
    1 + p.auth.sent + p.auth.received + p.auth.closes
    + (if p.tokenPc == NoGoroutine then 0 else p.token.sent) + p.token.received + p.token.closes
  }

  /** Steps taken so far. */
  function Clock(pipes: seq<Pipe>): nat {
    if pipes == [] then 0 else Clock(pipes[..|pipes| - 1]) + Used(pipes[|pipes| - 1])
  }

  lemma {:induction false} ClockUpdate(pipes: seq<Pipe>, i: nat, p: Pipe)
    requires i < |pipes|
    ensures Clock(pipes[i := p]) + Used(pipes[i]) == Clock(pipes) + Used(p)
  {
    var n := |pipes| - 1;
    if i < n {
      assert pipes[i := p][..n] == pipes[..n][i := p];
      ClockUpdate(pipes[..n], i, p);
    } else {
      assert pipes[i := p][..n] == pipes[..n];
    }
  }

  lemma {:induction false} ClockBound(pipes: seq<Pipe>)
    requires forall i | 0 <= i < |pipes| :: Used(pipes[i]) <= 7
    ensures Clock(pipes) <= 7 * |pipes|
  {
    if pipes != [] { ClockBound(pipes[..|pipes| - 1]); }
  }

  lemma StepTicks(s: System, a: Action)
    requires Inv(s) && Enabled(s, a)
    ensures Clock(Step(s, a).pipes) == Clock(s.pipes) + 1
  {
    var t := Step(s, a);
    if a.Begin? {
      assert t.pipes[..|s.pipes|] == s.pipes;
    } else {
      var i := if a.TokenRecv? || a.TokenClose? then s.consumer.n else a.i;
      assert PipeOk(s.pipes[i], Got(s, i), Shut(s, i));
      ClockUpdate(s.pipes, i, t.pipes[i]);
      assert t.pipes == s.pipes[i := t.pipes[i]];
    }
  }

  lemma {:induction false} RunTicks(s: System, schedule: seq<Action>)
    requires Inv(s) && Legal(s, schedule)
    ensures Clock(Run(s, schedule).pipes) == Clock(s.pipes) + |schedule|
    decreases |schedule|
  {
    if schedule != [] {
      StepTicks(s, schedule[0]);
      StepInv(s, schedule[0]);
      RunTicks(Step(s, schedule[0]), schedule[1..]);
    }
  }

  /** Every interleaving ends, after at most seven steps for each login; and
      where it cannot go on the consumer has ended, and each channel that a
      goroutine uses has carried one value and is closed. */
  lemma EverythingEnds(logins: nat, schedule: seq<Action>)
    requires Legal(Init(logins), schedule)
    ensures var s := Run(Init(logins), schedule);
            && |schedule| == Clock(s.pipes) <= 7 * |s.pipes| && |s.pipes| <= logins
            && ((forall a :: !Enabled(s, a)) ==>
                  && s.consumer == Finished
                  && forall i | 0 <= i < |s.pipes| ::
                       && s.pipes[i].token == Chan(1, 1, 1)
                       && (s.pipes[i].tokenPc != NoGoroutine ==> s.pipes[i].auth == Chan(1, 1, 1)))
  {
    RunInv(Init(logins), schedule);
    RunTicks(Init(logins), schedule);
    var s := Run(Init(logins), schedule);
    forall i | 0 <= i < |s.pipes| ensures Used(s.pipes[i]) <= 7 {
      assert PipeOk(s.pipes[i], Got(s, i), Shut(s, i));
    }
    ClockBound(s.pipes);
    if forall a :: !Enabled(s, a) {
      NeverStuck(logins, schedule);
      ChannelProtocol(logins, schedule);
    }
  }

  /** The first channel of an owner reset is closed before the second login is
      begun, so the deferred close only ever meets the channel in use. */
  lemma HandOver(logins: nat, schedule: seq<Action>, i: nat)
    requires Legal(Init(logins), schedule)
    requires i + 1 < |Run(Init(logins), schedule).pipes|
    ensures Run(Init(logins), schedule).pipes[i].token == Chan(1, 1, 1)
  {
    RunInv(Init(logins), schedule);
    var s := Run(Init(logins), schedule);
    assert PipeOk(s.pipes[i], Got(s, i), Shut(s, i));
  }
}
