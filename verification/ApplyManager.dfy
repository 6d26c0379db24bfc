/**
  The apply job of webd: one worker thread at a time restarts the network and then the chime daemon.  The
  critical sections are methods of the class; the machine below interleaves them in every possible way.
 */
module ApplyManager {
  import opened Wrappers

  datatype State = Idle | Pending | Running | Succeeded | Failed

  datatype Status = Status(jobId: nat, state: State, error: string, startedAt: string, finishedAt: string)

  predicate Busy(s: Status) {
    s.state == Pending || s.state == Running
  }

  // --------------------------------------------------------- critical sections

  /** `StartApply`: the new status, and the worker to start, if any. */
  function Started(s: Status, next: nat, now: string): (Status, Option<nat>) {
    if Busy(s) then (s, None) else (Status(next, Pending, "", now, ""), Some(next))
  }

  /** The first section of `RunApplyJob`; None if the status belongs to another job. */
  function Begun(s: Status, jobId: nat, now: string): Option<Status> {
    if s.jobId != jobId then None else Some(s.(state := Running, startedAt := now))
  }

  /** Its last section; `failure` is None after both restarts succeeded. */
  function Finished(s: Status, failure: Option<string>, now: string): Status {
    match failure
    case None => s.(state := Succeeded, finishedAt := now, error := "")
    case Some(error) => s.(state := Failed, finishedAt := now, error := error)
  }

  class ApplyManager {
    var status: Status
    var nextJobId: nat

    constructor ()
      ensures status == Status(0, Idle, "", "", "") && nextJobId == 1
    {
      status, nextJobId := Status(0, Idle, "", "", ""), 1;
    }

    method StartApply(now: string) returns (answer: Status, worker: Option<nat>)
      modifies this
      ensures (status, worker) == Started(old(status), old(nextJobId), now) && answer == status
      ensures nextJobId == old(nextJobId) + if worker.Some? then 1 else 0
    {
      if status.state == Pending || status.state == Running {
        return status, None;
      }
      var jobId := nextJobId;
      nextJobId := nextJobId + 1;
      status := status.(jobId := jobId);
      status := status.(state := Pending);
      status := status.(error := "");
      status := status.(startedAt := now);
      status := status.(finishedAt := "");
      return status, Some(jobId);
    }

    method BeginJob(jobId: nat, now: string) returns (go: bool)
      modifies this`status
      ensures var begun := Begun(old(status), jobId, now);
              go == begun.Some? && status == if go then begun.value else old(status)
    {
      if status.jobId != jobId {
        return false;
      }
      status := status.(state := Running);
      status := status.(startedAt := now);
      return true;
    }

    method FinishJob(failure: Option<string>, now: string)
      modifies this`status
      ensures status == Finished(old(status), failure, now)
    {
      status := status.(state := if failure.Some? then Failed else Succeeded);
      status := status.(finishedAt := now);
      status := status.(error := if failure.Some? then failure.value else "");
    }
  }

  // ----------------------------------------------------------------- machine

  datatype Command = Network | Chime

  /** Where a worker thread is. */
  datatype Phase =
    | Spawned
    | ReadyFor(command: Command)
    | RunningCommand(command: Command)
    | Reporting(failure: Option<string>)

  /** What happened to the restart commands, in order. */
  datatype Mark = Begin(job: nat, command: Command) | End(job: nat, command: Command, ok: bool)

  datatype System = System(status: Status, next: nat, workers: map<nat, Phase>, log: seq<Mark>, spawned: seq<nat>)

  datatype Event =
    | Apply(now: string)
    | Enter(worker: nat, now: string)
    | Launch(worker: nat)
    | Return(worker: nat, ok: bool, error: string)
    | Report(worker: nat, now: string)

  const START := System(Status(0, Idle, "", "", ""), 1, map[], [], [])

  /** Any worker may take its next step at any time, and any request may come at any time. */
  predicate Enabled(s: System, e: Event) {
    match e
    case Apply(_) => true
    case Enter(w, _) => w in s.workers && s.workers[w].Spawned?
    case Launch(w) => w in s.workers && s.workers[w].ReadyFor?
    case Return(w, _, _) => w in s.workers && s.workers[w].RunningCommand?
    case Report(w, _) => w in s.workers && s.workers[w].Reporting?
  }

  function AfterCommand(command: Command, ok: bool, error: string): Phase {
    if ok then (if command == Network then ReadyFor(Chime) else Reporting(None))
    else Reporting(Some((if command == Network then "network restart failed: " else "chime restart failed: ") + error))
  }

  function Step(s: System, e: Event): System
    requires Enabled(s, e)
  {
    match e
    case Apply(now) =>
      var (status, worker) := Started(s.status, s.next, now);
      if worker.None? then s
      else System(status, s.next + 1, s.workers[worker.value := Spawned], s.log, s.spawned + [worker.value])
    case Enter(w, now) =>
      (match Begun(s.status, w, now)
       case None => s.(workers := s.workers - {w})
       case Some(status) => s.(status := status, workers := s.workers[w := ReadyFor(Network)]))
    case Launch(w) =>
      var command := s.workers[w].command;
      s.(workers := s.workers[w := RunningCommand(command)], log := s.log + [Begin(w, command)])
    case Return(w, ok, error) =>
      var command := s.workers[w].command;
      s.(workers := s.workers[w := AfterCommand(command, ok, error)], log := s.log + [End(w, command, ok)])
    case Report(w, now) =>
      s.(status := Finished(s.status, s.workers[w].failure, now), workers := s.workers - {w})
  }

  predicate Possible(s: System, events: seq<Event>)
    decreases |events|
  {
    events != [] ==> Enabled(s, events[0]) && Possible(Step(s, events[0]), events[1..])
  }

  function Run(s: System, events: seq<Event>): System
    requires Possible(s, events)
    decreases |events|
  {
    if events == [] then s else Run(Step(s, events[0]), events[1..])
  }

  // --------------------------------------------------------------- invariant

  /** May this mark follow the earlier ones? */
  ghost predicate Follows(log: seq<Mark>, mark: Mark) {
    match mark
    case End(job, command, _) => log != [] && log[|log| - 1] == Begin(job, command)
    case Begin(job, Chime) => log != [] && log[|log| - 1] == End(job, Network, true)
    case Begin(job, Network) =>
      && (forall m <- log :: m.job < job)
      && (log != [] ==> var last := log[|log| - 1]; last.End? && !(last.command == Network && last.ok))
  }

  /**
    The commands never overlap: each one ends before the next begins, a chime restart comes only right after
    the successful network restart of the same job, and a new job only after the last one is over.
   */
  ghost predicate Sequential(log: seq<Mark>) {
    forall i | 0 <= i < |log| :: Follows(log[..i], log[i])
  }

  ghost predicate Increasing(ids: seq<nat>) {
    forall i, j | 0 <= i < j < |ids| :: ids[i] < ids[j]
  }

  /** How the log ends, given where the job's worker is. */
  ghost predicate LogFits(log: seq<Mark>, job: nat, phase: Phase) {
    match phase
    case Spawned => Over(log) && forall m <- log :: m.job < job
    case ReadyFor(Network) => Over(log) && forall m <- log :: m.job < job
    case ReadyFor(Chime) => EndsWith(log, End(job, Network, true))
    case RunningCommand(c) => EndsWith(log, Begin(job, c))
    case Reporting(None) => EndsWith(log, End(job, Chime, true))
    case Reporting(Some(_)) => EndsWith(log, End(job, Network, false)) || EndsWith(log, End(job, Chime, false))
  }

  ghost predicate EndsWith(log: seq<Mark>, mark: Mark) {
    log != [] && log[|log| - 1] == mark
  }

  ghost predicate Over(log: seq<Mark>) {
    log != [] ==> var last := log[|log| - 1]; last.End? && !(last.command == Network && last.ok)
  }

  ghost predicate Inv(s: System) {
    && s.next > s.status.jobId
    && Sequential(s.log)
    && (forall m <- s.log :: m.job <= s.status.jobId)
    && Increasing(s.spawned)
    && (if s.spawned == [] then s.status.jobId == 0 else s.spawned[|s.spawned| - 1] == s.status.jobId)
    && (if Busy(s.status) then
          && s.workers.Keys == {s.status.jobId}
          && (s.workers[s.status.jobId].Spawned? <==> s.status.state == Pending)
          && LogFits(s.log, s.status.jobId, s.workers[s.status.jobId])
        else
          && s.workers == map[]
          && (s.status.state == Idle ==> s.log == [])
          && (s.status.state == Succeeded ==> EndsWith(s.log, End(s.status.jobId, Chime, true)))
          && (s.status.state == Failed ==>
                EndsWith(s.log, End(s.status.jobId, Network, false)) ||
                    EndsWith(s.log, End(s.status.jobId, Chime, false))))
  }

  lemma SequentialSnoc(log: seq<Mark>, mark: Mark)
    requires Sequential(log) && Follows(log, mark)
    ensures Sequential(log + [mark])
  {
    hide Follows;
    var all := log + [mark];
    forall i | 0 <= i < |all| ensures Follows(all[..i], all[i]) {
      if i < |log| {
        assert all[..i] == log[..i];
      } else {
        assert all[..i] == log;
      }
    }
  }

  lemma IncreasingSnoc(ids: seq<nat>, id: nat)
    requires Increasing(ids) && (ids != [] ==> ids[|ids| - 1] < id)
    ensures Increasing(ids + [id])
  {
  }

  lemma StepKeepsInv(s: System, e: Event)
    requires Inv(s) && Enabled(s, e)
    ensures Inv(Step(s, e))
    ensures e.Enter? ==> s.status.jobId == e.worker
  {
    hide Sequential, Increasing;
    match e
    case Apply(now) =>
      IncreasingSnoc(s.spawned, s.next);
    case Enter(w, now) =>
      assert w in s.workers.Keys;
    case Launch(w) =>
      assert w in s.workers.Keys;
      SequentialSnoc(s.log, Begin(w, s.workers[w].command));
    case Return(w, ok, error) =>
      assert w in s.workers.Keys;
      SequentialSnoc(s.log, End(w, s.workers[w].command, ok));
    case Report(w, now) =>
      assert w in s.workers.Keys;
  }

  lemma {:induction false} RunKeepsInv(s: System, events: seq<Event>)
    requires Inv(s) && Possible(s, events)
    ensures Inv(Run(s, events))
    decreases |events|
  {
    hide Inv, Enabled, Step;
    if events != [] {
      StepKeepsInv(s, events[0]);
      RunKeepsInv(Step(s, events[0]), events[1..]);
    }
  }

  /** In every interleaving: */
  lemma EveryRunIsSingleFlight(events: seq<Event>)
    requires Possible(START, events)
    ensures var s := Run(START, events);
            // the status is pending or running exactly while one worker lives, and it is that worker's
            && s.workers.Keys == (if Busy(s.status) then {s.status.jobId} else {})
            // a worker that enters finds its own id, so the early return is never taken
            && (forall w <- s.workers :: s.workers[w].Spawned? ==> Begun(s.status, w, "").Some?)
            // job ids only grow
            && Increasing(s.spawned)
            // restarts never overlap, and the chime daemon's follows only a successful network restart
            && Sequential(s.log)
            // and the outcome that is shown is the outcome of the last command of that job
            && (s.status.state == Succeeded ==> EndsWith(s.log, End(s.status.jobId, Chime, true)))
            && (s.status.state == Failed ==>
                  EndsWith(s.log, End(s.status.jobId, Network, false)) ||
                      EndsWith(s.log, End(s.status.jobId, Chime, false)))
  {
    hide Possible, Run, Sequential, Follows;
    assert Inv(START) by { EmptyIsSequential(); }
    RunKeepsInv(START, events);
  }

  lemma EmptyIsSequential()
    ensures Sequential([])
  {
  }

  lemma {:induction false} RunBoth(s: System, a: seq<Event>, b: seq<Event>)
    requires Possible(s, a) && Possible(Run(s, a), b)
    ensures Possible(s, a + b) && Run(s, a + b) == Run(Run(s, a), b)
    decreases |a|
  {
    hide Enabled, Step;
    if a == [] {
      assert a + b == b;
    } else {
      assert (a + b)[1..] == a[1..] + b;
      RunBoth(Step(s, a[0]), a[1..], b);
    }
  }

  lemma TwoSteps(s: System, e: Event, f: Event)
    requires Enabled(s, e) && Enabled(Step(s, e), f)
    ensures Possible(s, [e, f]) && Run(s, [e, f]) == Step(Step(s, e), f)
  {
    hide Enabled, Step;
    assert [e, f][1..] == [f] && [f][1..] == [];
    var s1 := Step(s, e);
    assert Possible(Step(s1, f), []) && Run(Step(s1, f), []) == Step(s1, f);
    assert Possible(s1, [f]) && Run(s1, [f]) == Step(s1, f);
  }

  /** One restart command from its launch to its end. */
  lemma CommandRuns(s: System, job: nat, command: Command, failure: Option<string>)
    requires s.workers == map[job := ReadyFor(command)]
    ensures var ok, error := failure.None?, if failure.None? then "" else failure.value;
            var steps := [Launch(job), Return(job, ok, error)];
            && Possible(s, steps)
            && Run(s, steps) == s.(workers := map[job := AfterCommand(command, ok, error)],
                                   log := s.log + [Begin(job, command), End(job, command, ok)])
  {
    var ok, error := failure.None?, if failure.None? then "" else failure.value;
    TwoSteps(s, Launch(job), Return(job, ok, error));
    assert s.log + [Begin(job, command)] + [End(job, command, ok)]
        == s.log + [Begin(job, command), End(job, command, ok)];
  }

  /** The steps of a job without its start: the commands, and the report. */
  function JobSteps(job: nat, network: Option<string>, chime: Option<string>, now: string): seq<Event> {
    CommandSteps(job, network) + (if network.Some? then [] else CommandSteps(job, chime)) + [Report(job, now)]
  }

  function CommandSteps(job: nat, failure: Option<string>): seq<Event> {
    [Launch(job), Return(job, failure.None?, if failure.None? then "" else failure.value)]
  }

  /** What the log gains. */
  function JobMarks(job: nat, network: Option<string>, chime: Option<string>): seq<Mark> {
    [Begin(job, Network), End(job, Network, network.None?)] +
    if network.Some? then [] else [Begin(job, Chime), End(job, Chime, chime.None?)]
  }

  function JobError(network: Option<string>, chime: Option<string>): Option<string> {
    if network.Some? then Some("network restart failed: " + network.value)
    else if chime.Some? then Some("chime restart failed: " + chime.value)
    else None
  }

  lemma CommandsRun(s: System, job: nat, network: Option<string>, chime: Option<string>)
    requires s.workers == map[job := ReadyFor(Network)]
    ensures var steps := CommandSteps(job, network) + if network.Some? then [] else CommandSteps(job, chime);
            && Possible(s, steps)
            && Run(s, steps) == s.(workers := map[job := Reporting(JobError(network, chime))],
                                   log := s.log + JobMarks(job, network, chime))
  {
    hide Run, Possible, Step, Enabled;
    CommandRuns(s, job, Network, network);
    var s1 := Run(s, CommandSteps(job, network));
    if network.None? {
      CommandRuns(s1, job, Chime, chime);
      RunBoth(s, CommandSteps(job, network), CommandSteps(job, chime));
      assert s.log + [Begin(job, Network), End(job, Network, true)] + [Begin(job, Chime), End(job, Chime, chime.None?)]
          == s.log + JobMarks(job, network, chime);
    } else {
      assert CommandSteps(job, network) + [] == CommandSteps(job, network);
      assert JobMarks(job, network, chime) == [Begin(job, Network), End(job, Network, false)];
    }
  }

  lemma ReportEnds(s: System, job: nat, failure: Option<string>, now: string)
    requires s.workers == map[job := Reporting(failure)]
    ensures Possible(s, [Report(job, now)])
    ensures var s' := Run(s, [Report(job, now)]);
            s' == s.(workers := map[], status := s.status.(
                       state := if failure.None? then Succeeded else Failed, finishedAt := now,
                       error := if failure.None? then "" else failure.value))
  {
    assert [Report(job, now)][1..] == [];
    assert s.workers - {job} == map[];
  }

  /**
    A request that finds no job at work starts one under the next id, and that job, left alone, runs: the network
    restart, after its success that of chime, and in the end the outcome of the two.
   */
  lemma JobRuns(s: System, network: Option<string>, chime: Option<string>, t0: string, t1: string, t2: string)
    requires Inv(s) && !Busy(s.status)
    ensures var job := s.next;
            var events := [Apply(t0), Enter(job, t1)] + JobSteps(job, network, chime, t2);
            && Possible(s, events)
            && var s' := Run(s, events);
               && s'.log == s.log + JobMarks(job, network, chime) && s'.workers == map[] && s'.next == job + 1
               && s'.status == Status(job, if JobError(network, chime).None? then Succeeded else Failed,
                                      if JobError(network, chime).None? then "" else JobError(network, chime).value,
                                      t1, t2)
  {
    hide Run, Possible, CommandSteps, JobMarks, JobError;
    var job := s.next;
    TwoSteps(s, Apply(t0), Enter(job, t1));
    var s1 := Run(s, [Apply(t0), Enter(job, t1)]);
    assert s1.workers == map[job := ReadyFor(Network)];
    CommandsRun(s1, job, network, chime);
    var steps := CommandSteps(job, network) + if network.Some? then [] else CommandSteps(job, chime);
    var s2 := Run(s1, steps);
    ReportEnds(s2, job, JobError(network, chime), t2);
    RunBoth(s1, steps, [Report(job, t2)]);
    RunBoth(s, [Apply(t0), Enter(job, t1)], steps + [Report(job, t2)]);
  }

  /** One that finds a job at work changes nothing. */
  lemma BusyStays(s: System, now: string)
    requires Busy(s.status)
    ensures Step(s, Apply(now)) == s && Started(s.status, s.next, now) == (s.status, None)
  {
  }
}
