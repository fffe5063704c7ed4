/** The soak run's scheduling loop and its timers, as one step system. */
module Scheduler {
  datatype Config = Config(total: nat, limit: nat, start: real, deadline: real, interval: real,
                           maximumNoCompletion: real)

  function PlannedAt(c: Config, index: nat): real { c.start + index as real * c.interval }

  /**
   * Where the loop is: at its head, in a delay, before or inside the wait for a free place, or before its last check.
   */
  datatype Place = Head | Delayed | Gate | Racing(from: nat) | Last | Finished

  datatype Counters = Counters(completed: int, failed: int, attempts: int)

  function Plus(a: Counters, b: Counters): Counters {
    Counters(a.completed + b.completed, a.failed + b.failed, a.attempts + b.attempts)
  }

  predicate SumOf(t: Counters, a: Counters, b: Counters) {
    t.completed == a.completed + b.completed && t.failed == a.failed + b.failed && t.attempts == a.attempts + b.attempts
  }

  const ZERO := Counters(0, 0, 0)

  /**
   * `running` operations have not settled; `settled` ones have counted their result but are still in the in-flight
   * set. `written` is the sum of the interval columns of all rollups, `open` the interval counters since the last.
   */
  datatype State = State(
    place: Place, now: real, index: nat, running: nat, settled: nat, scheduled: nat,
    writeFailures: nat, otherFailures: nat,
    totals: Counters, open: Counters, written: Counters,
    lastCompletion: real, stallOpen: bool, stalls: nat, stopped: bool, exited: bool)

  function Init(c: Config): State {
    State(Head, c.start, 0, 0, 0, 0, 0, 0, ZERO, ZERO, ZERO, c.start, false, 0, false, false)
  }

  function InFlight(s: State): nat { s.running + s.settled }

  datatype Action =
    | Loop                   // the loop goes on to its next check or wait
    | Clock(now: real)
    | Succeed | FailWrite    // an operation settles
    | Attempt                // a transaction attempt
    | Leave                  // an operation's promise leaves the in-flight set
    | OtherFailure           // a listener, churn or sampling error
    | Rollup | StallTimer
    | FailFast               // the slope limit stops the run
    | ServerExit             // the server process is gone, which only the loop notices

  /** A race can only be won by an operation that has left the set since. */
  predicate Enabled(c: Config, s: State, a: Action) {
    match a
    case Loop =>
      (match s.place
       case Finished => false
       case Delayed => s.now >= PlannedAt(c, s.index)
       case Racing(from) => InFlight(s) < from
       case _ => true)
    case Succeed | FailWrite | Attempt => s.running > 0
    case Leave => s.settled > 0
    case _ => true
  }

  function Count(s: State, d: Counters): State { s.(totals := Plus(s.totals, d), open := Plus(s.open, d)) }

  function LoopStep(c: Config, s: State): State {
    match s.place
    case Head =>
      if s.index >= c.total || s.stopped || s.exited || PlannedAt(c, s.index) >= c.deadline || s.now >= c.deadline
      then s.(place := Finished) else s.(place := Delayed)
    case Delayed => s.(place := if s.stopped then Finished else Gate)
    case Gate => s.(place := if InFlight(s) >= c.limit then Racing(InFlight(s)) else Last)
    case Racing(_) => s.(place := if s.now >= c.deadline then Last else Gate)
    case Last =>
      if s.now >= c.deadline then s.(place := Finished)
      else s.(place := Head, index := s.index + 1, running := s.running + 1, scheduled := s.scheduled + 1)
    case Finished => s
  }

  /** `recordStall` looks for a stall only while more was scheduled than has completed or failed. */
  predicate Watches(s: State) { s.scheduled > s.totals.completed + s.totals.failed && !s.stopped }

  predicate RecordsStall(c: Config, s: State) {
    Watches(s) && s.now - s.lastCompletion >= c.maximumNoCompletion && !s.stallOpen
  }

  function Next(c: Config, s: State, a: Action): State
    requires Enabled(c, s, a)
  {
    match a
    case Loop => LoopStep(c, s)
    case Clock(now) => s.(now := now)
    case Succeed =>
      Count(s, Counters(1, 0, 0)).(running := s.running - 1, settled := s.settled + 1,
                                   lastCompletion := s.now, stallOpen := false)
    case FailWrite =>
      Count(s, Counters(0, 1, 0)).(running := s.running - 1, settled := s.settled + 1,
                                   writeFailures := s.writeFailures + 1)
    case Attempt => Count(s, Counters(0, 0, 1))
    case Leave => s.(settled := s.settled - 1)
    case OtherFailure => Count(s, Counters(0, 1, 0)).(otherFailures := s.otherFailures + 1)
    case Rollup => s.(written := Plus(s.written, s.open), open := ZERO)
    case StallTimer => if RecordsStall(c, s) then s.(stallOpen := true, stalls := s.stalls + 1) else s
    case FailFast => s.(stopped := true)
    case ServerExit => s.(exited := true)
  }

  /** Nothing is lost: operations, results and rollup columns all add up. */
  predicate Conserved(s: State) {
    && s.scheduled == s.totals.completed + s.writeFailures + s.running
    && s.totals.failed == s.writeFailures + s.otherFailures
    && SumOf(s.totals, s.written, s.open)
  }

  /** The in-flight set never outgrows the limit, and is below it when the loop is about to schedule. */
  predicate Bounded(c: Config, s: State) {
    && InFlight(s) <= c.limit
    && (s.place.Last? ==> InFlight(s) < c.limit)
    && (s.place.Racing? ==> InFlight(s) <= s.place.from <= c.limit)
  }

  predicate Progress(c: Config, s: State) {
    s.scheduled == s.index <= c.total && (!s.place.Head? && !s.place.Finished? ==> s.index < c.total)
  }

  predicate Valid(c: Config, s: State) { Conserved(s) && Bounded(c, s) && Progress(c, s) }

  function Run(c: Config, s: State, actions: seq<Action>): State
    requires Possible(c, s, actions)
    decreases |actions|
  {
    if actions == [] then s else Run(c, Next(c, s, actions[0]), actions[1..])
  }

  predicate Possible(c: Config, s: State, actions: seq<Action>)
    decreases |actions|
  {
    actions != [] ==> Enabled(c, s, actions[0]) && Possible(c, Next(c, s, actions[0]), actions[1..])
  }

  lemma {:induction false} NextValid(c: Config, s: State, a: Action)
    requires Valid(c, s) && Enabled(c, s, a)
    ensures Valid(c, Next(c, s, a))
  {
    hide PlannedAt, RecordsStall;
  }

  /** Whatever the clock does and however operations and timers interleave. */
  lemma {:induction false} RunValid(c: Config, s: State, actions: seq<Action>)
    requires Valid(c, s) && Possible(c, s, actions)
    ensures Valid(c, Run(c, s, actions))
    decreases |actions|
  {
    hide Valid, Enabled, Next;
    if actions != [] {
      NextValid(c, s, actions[0]);
      RunValid(c, Next(c, s, actions[0]), actions[1..]);
    }
  }

  /** When the clock never goes back, operation `i` is not scheduled before its planned time. */
  predicate Paced(c: Config, s: State) {
    && (s.scheduled > 0 ==> s.now >= PlannedAt(c, s.scheduled - 1))
    && (s.place.Gate? || s.place.Racing? || s.place.Last? ==> s.now >= PlannedAt(c, s.index))
  }

  predicate NeverBack(c: Config, s: State, actions: seq<Action>)
    requires Possible(c, s, actions)
    decreases |actions|
  {
    actions != [] ==>
      (actions[0].Clock? ==> actions[0].now >= s.now) && NeverBack(c, Next(c, s, actions[0]), actions[1..])
  }

  lemma {:induction false} NextPaced(c: Config, s: State, a: Action)
    requires Valid(c, s) && Paced(c, s) && Enabled(c, s, a) && (a.Clock? ==> a.now >= s.now)
    ensures Paced(c, Next(c, s, a))
  {
    hide PlannedAt, RecordsStall;
  }

  /** So at no point of such a run have more operations been scheduled than the target rate allows. */
  lemma {:induction false} RunPaced(c: Config, s: State, actions: seq<Action>)
    requires Valid(c, s) && Paced(c, s) && Possible(c, s, actions) && NeverBack(c, s, actions)
    ensures Paced(c, Run(c, s, actions))
    decreases |actions|
  {
    hide Valid, Enabled, Next, Paced;
    if actions != [] {
      NextValid(c, s, actions[0]);
      NextPaced(c, s, actions[0]);
      RunPaced(c, Next(c, s, actions[0]), actions[1..]);
    }
  }

  lemma InitValid(c: Config)
    ensures Valid(c, Init(c))
  {}

  lemma WatchedState(s: State)
    requires Conserved(s)
    ensures Watches(s) <==> s.running > s.otherFailures && !s.stopped
  {}

  /** In every run, the stall watch is on exactly while more operations run than unrelated errors were counted. */
  lemma WatchCondition(c: Config, actions: seq<Action>)
    requires Possible(c, Init(c), actions)
    ensures var s := Run(c, Init(c), actions);
      Watches(s) <==> s.running > s.otherFailures && !s.stopped
  {
    hide Run, Possible, Init, Watches, Conserved;
    InitValid(c);
    RunValid(c, Init(c), actions);
    WatchedState(Run(c, Init(c), actions));
  }

  /** The clock and the stall timer alone. */
  function Watching(times: seq<real>): seq<Action> {
    if times == [] then [] else [Clock(times[0])] + ([StallTimer] + Watching(times[1..]))
  }

  lemma {:induction false} RunOne(c: Config, s: State, a: Action, rest: seq<Action>)
    requires Enabled(c, s, a) && Possible(c, Next(c, s, a), rest)
    ensures Possible(c, s, [a] + rest) && Run(c, s, [a] + rest) == Run(c, Next(c, s, a), rest)
  {
    assert ([a] + rest)[1..] == rest;
  }

  /** Otherwise an operation that never settles goes unnoticed, for however long the timers go on. */
  lemma {:induction false} MaskedStall(c: Config, s: State, times: seq<real>)
    requires Conserved(s) && s.running <= s.otherFailures
    ensures Possible(c, s, Watching(times)) && Run(c, s, Watching(times)).stalls == s.stalls
    decreases |times|
  {
    hide Run, Possible, Watches, Conserved;
    if times != [] {
      var s1 := s.(now := times[0]);
      assert Conserved(s1) by { ClockKeeps(s, times[0]); }
      WatchedState(s1);
      MaskedStall(c, s1, times[1..]);
      assert Next(c, s, Clock(times[0])) == s1 && Next(c, s1, StallTimer) == s1;
      RunOne(c, s1, StallTimer, Watching(times[1..]));
      RunOne(c, s, Clock(times[0]), [StallTimer] + Watching(times[1..]));
    } else {
      assert Possible(c, s, []) && Run(c, s, []) == s by { RunNone(c, s); }
    }
  }

  lemma ClockKeeps(s: State, now: real)
    requires Conserved(s)
    ensures Conserved(s.(now := now))
  {}

  lemma RunNone(c: Config, s: State)
    ensures Possible(c, s, []) && Run(c, s, []) == s
  {}
}
