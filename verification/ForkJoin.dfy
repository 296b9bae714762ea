/** GetSpaceNodes forks a goroutine that fetches the shared spaces while the
    local targets are indexed, and joins it before the shared spaces are
    scanned (mycscloud/space_nodes.go). The two threads as a state machine. */
module ForkJoin {
  import opened Outcomes
  import opened SpaceIndex

  /** What one call works on: the local targets and the answer of GetSpaces(). */
  datatype Job = Job(parse: UrlParser, targets: seq<Target>, spaces: seq<SpaceNode>, error: Option<string>)

  /** Indexing the n-th target, about to join, joined, or returned `err`. */
  datatype MainPc = Indexing(next: nat) | Joined | Returned(err: Option<string>)

  /** The two assignments of the fetch goroutine, then asyncCall.Done(). */
  datatype FetchPc = Asking | SpacesWritten | ErrorWritten | Signalled

  datatype State = State(main: MainPc, fetch: FetchPc, ids: map<string, Target>, index: Index,
                         shared: seq<SpaceNode>, error: Option<string>)

  datatype Thread = Main | Fetcher

  const START := State(Indexing(0), Asking, map[], NO_NODES, [], None)

  /** One step of a thread; None when it is blocked in Wait or has ended. */
  function Step(job: Job, s: State, t: Thread): Option<State> {
    match t
    case Fetcher => (
      match s.fetch
      case Asking => Some(s.(shared := job.spaces, fetch := SpacesWritten))
      case SpacesWritten => Some(s.(error := job.error, fetch := ErrorWritten))
      case ErrorWritten => Some(s.(fetch := Signalled))
      case Signalled => None
    )
    case Main => (
      match s.main
      case Indexing(n) =>
        if n < |job.targets| then
          var target := job.targets[n];
          Some(s.(main := Indexing(n + 1), ids := AddTargetID(s.ids, target),
                  index := AddTarget(job.parse, s.index, target)))
        else if s.fetch == Signalled then Some(s.(main := Joined))
        else None
      case Joined =>
        if s.error.Some? then Some(s.(main := Returned(s.error)))
        else Some(s.(main := Returned(None), index := ScanSpaces(job.parse, s.index, s.shared),
                     shared := KeepShared(s.ids.Keys, s.shared)))
      case Returned(_) => None
    )
  }

  /** The state after a schedule in which every chosen thread could run. */
  function Exec(job: Job, schedule: seq<Thread>): Option<State> {
    if schedule == [] then Some(START)
    else
      match Exec(job, schedule[..|schedule| - 1])
      case None => None
      case Some(s) => Step(job, s, schedule[|schedule| - 1])
  }

  /** The result of fetching first and consolidating afterwards. */
  function Sequential(job: Job): State {
    var ids := TargetIDs(job.targets);
    State(Returned(job.error), Signalled, ids,
          if job.error.Some? then IndexTargets(job.parse, job.targets)
          else Consolidated(job.parse, job.targets, job.spaces),
          if job.error.Some? then job.spaces else KeepShared(ids.Keys, job.spaces),
          job.error)
  }

  /** How far each thread has come fixes the whole state. In particular the
      fetched fields are complete once the main thread has joined. */
  ghost predicate Progress(job: Job, s: State) {
    && (s.main.Indexing? ==>
          && s.main.next <= |job.targets|
          && s.ids == TargetIDs(job.targets[..s.main.next])
          && s.index == IndexTargets(job.parse, job.targets[..s.main.next]))
    && (s.main.Joined? ==>
          && s.ids == TargetIDs(job.targets)
          && s.index == IndexTargets(job.parse, job.targets))
    && (!s.main.Indexing? ==> s.fetch == Signalled)
    && (s.main.Returned? ==> s == Sequential(job))
    && (!s.main.Returned? ==>
          && s.shared == (if s.fetch == Asking then [] else job.spaces)
          && s.error == (if s.fetch.Asking? || s.fetch.SpacesWritten? then None else job.error))
  }

  /** Steps taken so far. */
  function Clock(job: Job, s: State): nat {
    (match s.main case Indexing(n) => n case Joined => |job.targets| + 1 case Returned(_) => |job.targets| + 2)
    + (match s.fetch case Asking => 0 case SpacesWritten => 1 case ErrorWritten => 2 case Signalled => 3)
  }

  lemma FetcherProgress(job: Job, s: State)
    requires Progress(job, s) && Step(job, s, Fetcher).Some?
    ensures Progress(job, Step(job, s, Fetcher).value)
    ensures Clock(job, Step(job, s, Fetcher).value) == Clock(job, s) + 1
  {
  }

  lemma MainProgress(job: Job, s: State)
    requires Progress(job, s) && Step(job, s, Main).Some?
    ensures Progress(job, Step(job, s, Main).value)
    ensures Clock(job, Step(job, s, Main).value) == Clock(job, s) + 1
  {
    var next := Step(job, s, Main).value;
    if s.main.Indexing? && s.main.next < |job.targets| {
      TargetsStep(job.parse, job.targets, s.main.next);
    } else if s.main.Indexing? {
      assert job.targets[..s.main.next] == job.targets;
    } else {
      assert next.main.Returned? && next == Sequential(job);
    }
  }

  lemma {:induction false} ExecProgress(job: Job, schedule: seq<Thread>)
    requires Exec(job, schedule).Some?
    ensures Progress(job, Exec(job, schedule).value)
    ensures Clock(job, Exec(job, schedule).value) == |schedule|
  {
    if schedule != [] {
      var n := |schedule| - 1;
      ExecProgress(job, schedule[..n]);
      var s := Exec(job, schedule[..n]).value;
      if schedule[n] == Main { MainProgress(job, s); } else { FetcherProgress(job, s); }
    }
  }

  /** Every interleaving that ends, ends in the indexes, the shared list and
      the error of the sequential run. */
  lemma JoinIsDeterministic(job: Job, schedule: seq<Thread>)
    requires Exec(job, schedule).Some? && Exec(job, schedule).value.main.Returned?
    ensures Exec(job, schedule).value == Sequential(job)
    ensures var s := Exec(job, schedule).value;
            && s.main == Returned(job.error)
            && (job.error == None ==>
                  && s.index == Consolidated(job.parse, job.targets, job.spaces)
                  && s.shared == KeepShared(TargetIDs(job.targets).Keys, job.spaces))
            && (job.error.Some? ==> s.index == IndexTargets(job.parse, job.targets) && s.shared == job.spaces)
  {
    ExecProgress(job, schedule);
  }

  /** No interleaving gets stuck before the call returns, and each ends after
      exactly one step per target and five more. */
  lemma JoinAlwaysReturns(job: Job, schedule: seq<Thread>)
    requires Exec(job, schedule).Some?
    ensures Exec(job, schedule).value.main.Returned? <==> |schedule| == |job.targets| + 5
    ensures |schedule| < |job.targets| + 5 ==> exists t :: Exec(job, schedule + [t]).Some?
  {
    ExecProgress(job, schedule);
    var s := Exec(job, schedule).value;
    if !s.main.Returned? {
      assert (schedule + [Main])[..|schedule|] == schedule == (schedule + [Fetcher])[..|schedule|];
      if s.fetch == Signalled {
        assert Exec(job, schedule + [Main]).Some?;
      } else {
        assert Exec(job, schedule + [Fetcher]).Some?;
      }
    }
  }

  /** The main thread reads the fetched fields only after they are complete. */
  lemma JoinedSeesAnswer(job: Job, schedule: seq<Thread>)
    requires Exec(job, schedule).Some? && Exec(job, schedule).value.main.Joined?
    ensures var s := Exec(job, schedule).value;
            s.fetch == Signalled && s.shared == job.spaces && s.error == job.error
  {
    ExecProgress(job, schedule);
  }
}
