/** How a Connect of network/tailscale_client.go ends, by the answers of its
    calls alone: output makes no difference to that. */
module ConnectOutcome {
  import opened Notices
  import opened ConnectModel

  predicate AllTrue(as_: seq<bool>, from: int, to: int) {
    0 <= from && to <= |as_| && forall i | from <= i < to :: as_[i]
  }

  predicate AllFalse(as_: seq<bool>, from: int, to: int) {
    0 <= from && to <= |as_| && forall i | from <= i < to :: !as_[i]
  }

  /** Answer i, not before `from`, is the first failure. */
  predicate FirstFailure(as_: seq<bool>, from: int, i: int) {
    0 <= from <= i < |as_| && !as_[i] && AllTrue(as_, from, i)
  }

  /** One of the answers from .. to - 1 is a failure, and all before it since
      `from` are successes. */
  ghost predicate FailsBetween(as_: seq<bool>, from: int, to: int) {
    exists i :: i < to && FirstFailure(as_, from, i)
  }

  /** The calls before the pings: mesh key, endpoint, login, and two for DNS. */
  function Calls(req: Request): nat { if req.useSpaceDNS then 5 else 3 }

  /** Answer p is the first pong, at most 29 misses after the first ping. */
  predicate PongAt(req: Request, as_: seq<bool>, p: int) {
    Calls(req) <= p < |as_| && p < Calls(req) + 30 && as_[p] && AllFalse(as_, Calls(req), p)
  }

  /** All calls succeed; for an egress connection the space may be used, one of
      30 pings gets its pong, and the five calls for IPv6 and the routes
      succeed. */
  ghost predicate Succeeds(req: Request, as_: seq<bool>) {
    && AllTrue(as_, 0, Calls(req))
    && (req.egress ==> req.canUseAsEgress && exists p :: PongAt(req, as_, p) && AllTrue(as_, p + 1, p + 6))
  }

  ghost predicate FailsAfterPong(req: Request, as_: seq<bool>) {
    exists p :: PongAt(req, as_, p) && FailsBetween(as_, p + 1, p + 6)
  }

  /** A call before the pings fails, the space may not be used, 30 pings in a row
      are missed, or one of the five calls after the pong fails. */
  ghost predicate Fails(req: Request, as_: seq<bool>) {
    || FailsBetween(as_, 0, Calls(req))
    || (req.egress && !req.canUseAsEgress && AllTrue(as_, 0, 2))
    || (req.egress && AllTrue(as_, 0, Calls(req)) && AllFalse(as_, Calls(req), Calls(req) + 30))
    || (req.egress && AllTrue(as_, 0, Calls(req)) && FailsAfterPong(req, as_))
  }

  /** The pong came with the last ping, and k calls have succeeded since. */
  predicate AfterPong(req: Request, c: Conn, as_: seq<bool>, k: nat) {
    var p := Calls(req) + c.pings - 1;
    && req.egress && req.canUseAsEgress && AllTrue(as_, 0, Calls(req))
    && PongAt(req, as_, p) && |as_| == p + 1 + k && AllTrue(as_, p + 1, |as_|)
  }

  /** What the answers say about where Connect is. */
  ghost predicate At(req: Request, c: Conn, as_: seq<bool>) {
    match c.pc
    case Returned(ok) => if ok then Succeeds(req, as_) else Fails(req, as_)
    case Ping =>
      && req.egress && req.canUseAsEgress && c.pings < 30 && |as_| == Calls(req) + c.pings
      && AllTrue(as_, 0, Calls(req)) && AllFalse(as_, Calls(req), |as_|)
    case DisableIPv6 => AfterPong(req, c, as_, 0)
    case RouteManager => AfterPong(req, c, as_, 1)
    case RouteEndpoints => AfterPong(req, c, as_, 2)
    case RouteSplits => AfterPong(req, c, as_, 3)
    case RouteDefault => AfterPong(req, c, as_, 4)
    case _ =>
      && c.pings == 0 && |as_| == Rank(c.pc) && AllTrue(as_, 0, |as_|)
      && (|as_| >= 3 ==> req.useSpaceDNS) && (|as_| >= 2 && req.egress ==> req.canUseAsEgress)
  }

  lemma StillFailsBetween(as_: seq<bool>, ok: bool, from: int, to: int)
    requires FailsBetween(as_, from, to)
    ensures FailsBetween(as_ + [ok], from, to)
  {
    var i :| i < to && FirstFailure(as_, from, i);
    assert FirstFailure(as_ + [ok], from, i);
  }

  lemma MoreAnswers(req: Request, as_: seq<bool>, ok: bool)
    ensures Succeeds(req, as_) ==> Succeeds(req, as_ + [ok])
    ensures Fails(req, as_) ==> Fails(req, as_ + [ok])
  {
    var more := as_ + [ok];
    if p :| PongAt(req, as_, p) && AllTrue(as_, p + 1, p + 6) {
      assert PongAt(req, more, p) && AllTrue(more, p + 1, p + 6);
    }
    if p :| PongAt(req, as_, p) && FailsBetween(as_, p + 1, p + 6) {
      StillFailsBetween(as_, ok, p + 1, p + 6);
      assert PongAt(req, more, p);
    }
    if FailsBetween(as_, 0, Calls(req)) { StillFailsBetween(as_, ok, 0, Calls(req)); }
  }

  lemma AnswerEarly(req: Request, c: Conn, as_: seq<bool>, ok: bool)
    requires At(req, c, as_) && Rank(c.pc) < 5
    ensures At(req, Step(req, c, Answer(ok)), as_ + [ok])
  {
    var more := as_ + [ok];
    if !ok { assert FirstFailure(more, 0, |as_|); }
  }

  lemma AnswerPing(req: Request, c: Conn, as_: seq<bool>, ok: bool)
    requires At(req, c, as_) && c.pc == Ping
    ensures At(req, Step(req, c, Answer(ok)), as_ + [ok])
  {
    var more := as_ + [ok];
    if ok { assert PongAt(req, more, |as_|); }
  }

  lemma AnswerAfterPong(req: Request, c: Conn, as_: seq<bool>, ok: bool)
    requires At(req, c, as_) && 6 <= Rank(c.pc) <= 10
    ensures At(req, Step(req, c, Answer(ok)), as_ + [ok])
  {
    var more, p := as_ + [ok], Calls(req) + c.pings - 1;
    assert PongAt(req, more, p);
    if !ok { assert FirstFailure(more, p + 1, |as_|) && FailsBetween(more, p + 1, p + 6); }
  }

  lemma AnswerAt(req: Request, c: Conn, as_: seq<bool>, ok: bool)
    requires At(req, c, as_)
    ensures At(req, Step(req, c, Answer(ok)), as_ + [ok])
  {
    if c.pc.Returned? {
      MoreAnswers(req, as_, ok);
    } else if c.pc == Ping {
      AnswerPing(req, c, as_, ok);
    } else if Rank(c.pc) < 5 {
      AnswerEarly(req, c, as_, ok);
    } else {
      AnswerAfterPong(req, c, as_, ok);
    }
  }

  lemma {:induction false} RunAt(req: Request, state: ConnectState, events: seq<Event>)
    ensures At(req, Run(req, Start(state), events), Answers(events))
  {
    if events != [] {
      var n := |events| - 1;
      var c, as_ := Run(req, Start(state), events[..n]), Answers(events[..n]);
      RunAt(req, state, events[..n]);
      match events[n] {
        case Output(_) =>
          assert Answers(events) == as_ + [] == as_;
        case Answer(ok) =>
          AnswerAt(req, c, as_, ok);
      }
    }
  }

  /** There is one first pong. */
  lemma OnePong(req: Request, as_: seq<bool>, p: int, q: int)
    requires PongAt(req, as_, p) && PongAt(req, as_, q)
    ensures p == q
  {
  }

  lemma NotBoth(req: Request, as_: seq<bool>)
    ensures !(Succeeds(req, as_) && Fails(req, as_))
  {
    if Succeeds(req, as_) && Fails(req, as_) {
      assert !FailsBetween(as_, 0, Calls(req));
      var p :| PongAt(req, as_, p) && AllTrue(as_, p + 1, p + 6);
      var q :| PongAt(req, as_, q) && FailsBetween(as_, q + 1, q + 6);
      OnePong(req, as_, p, q);
    }
  }

  lemma NotYet(req: Request, c: Conn, as_: seq<bool>)
    requires At(req, c, as_) && !c.pc.Returned?
    ensures !Succeeds(req, as_) && !Fails(req, as_)
  {
    if 6 <= Rank(c.pc) <= 10 {
      var p := Calls(req) + c.pings - 1;
      forall q | PongAt(req, as_, q) ensures q == p { OnePong(req, as_, p, q); }
    }
  }

  /** Connect has returned without error exactly when the answers so far are a
      success, and with an error exactly when they are a failure. */
  lemma ConnectOutcomeIff(req: Request, state: ConnectState, events: seq<Event>)
    ensures var c := Run(req, Start(state), events);
            && (c.pc == Returned(true) <==> Succeeds(req, Answers(events)))
            && (c.pc == Returned(false) <==> Fails(req, Answers(events)))
  {
    RunAt(req, state, events);
    var c := Run(req, Start(state), events);
    if c.pc.Returned? { NotBoth(req, Answers(events)); } else { NotYet(req, c, Answers(events)); }
  }

  /** An egress Connect that has come to the pings goes on after each miss, fails
      after 30 of them in a row, and comes to the exit-node step with a pong to
      any of the 30. */
  lemma PingsExact(req: Request, state: ConnectState, events: seq<Event>)
    requires req.egress && req.canUseAsEgress && AllTrue(Answers(events), 0, Calls(req))
    ensures var c, as_ := Run(req, Start(state), events), Answers(events);
            && (c.pc == Ping <==> AllFalse(as_, Calls(req), |as_|) && |as_| < Calls(req) + 30)
            && (AllFalse(as_, Calls(req), Calls(req) + 30) ==> c.pc == Returned(false))
            && (c.pc == DisableIPv6 <==> PongAt(req, as_, |as_| - 1))
            && ((exists p :: PongAt(req, as_, p)) ==>
                  Rank(c.pc) >= 6 && (c.pc == Returned(false) <==> FailsAfterPong(req, as_)))
  {
    var c, as_ := Run(req, Start(state), events), Answers(events);
    RunAt(req, state, events);
    ConnectOutcomeIff(req, state, events);
    if 6 <= Rank(c.pc) <= 10 {
      var p := Calls(req) + c.pings - 1;
      forall q | PongAt(req, as_, q) ensures q == p { OnePong(req, as_, p, q); }
    }
  }
}
