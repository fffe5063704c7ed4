/** One listener slot of the soak run: chained writes, snapshots and listener churn in every interleaving. */
module Listener {
  import opened Options

  /** The write at the head of the slot's chain. `applied`: the server has committed it. */
  datatype Write = Write(sequence: nat, applied: bool)

  /**
   * `commits` are the document's successive sequence numbers, the seeded 0 first. The listener has been shown
   * `commits[cursor]` last, or nothing yet while `initial`; `newest` is the latest index any listener was shown.
   * `last` is the latest sequence handed to the slot and `acked` the writes that were awaited successfully.
   */
  datatype Slot = Slot(
    last: nat, queue: seq<nat>, flying: Option<Write>, commits: seq<nat>, acked: seq<nat>,
    initial: bool, cursor: nat, newest: nat,
    expected: nat, observed: nat, mismatches: nat)

  const START := Slot(0, [], None, [0], [], true, 0, 0, 0, 0, 0)

  datatype Action =
    | Chain(sequence: nat)   // scheduleOperation appends to the slot's chain
    | Send                   // the previous write has settled
    | Commit                 // the server applies the write
    | Acknowledge            // the awaited write succeeds
    | Fail                   // the awaited write fails, applied or not
    | Snapshot(index: nat)   // the callback runs for one committed state
    | Churn                  // unsubscribe and start a replacement

  /** What can happen next; snapshots of one listener follow the commit order, a replacement starts anywhere. */
  predicate Enabled(s: Slot, a: Action) {
    match a
    case Chain(sequence) => sequence > s.last
    case Send => s.flying.None? && s.queue != []
    case Commit => s.flying.Some? && !s.flying.value.applied
    case Acknowledge => s.flying.Some? && s.flying.value.applied
    case Fail => s.flying.Some?
    case Snapshot(index) => index < |s.commits| && (!s.initial ==> s.cursor <= index)
    case Churn => true
  }

  function Next(s: Slot, a: Action): Slot
    requires Enabled(s, a)
  {
    match a
    case Chain(sequence) => s.(last := sequence, queue := s.queue + [sequence])
    case Send => s.(flying := Some(Write(s.queue[0], false)), queue := s.queue[1..])
    case Commit =>
      s.(flying := Some(s.flying.value.(applied := true)), commits := s.commits + [s.flying.value.sequence])
    case Acknowledge =>
      var sequence := s.flying.value.sequence;
      s.(flying := None, acked := s.acked + [sequence], expected := sequence)
    case Fail => s.(flying := None)
    case Snapshot(index) =>
      var sequence := s.commits[index];
      s.(mismatches := s.mismatches + (if !s.initial && sequence < s.observed then 1 else 0),
         observed := if sequence > s.observed then sequence else s.observed,
         initial := false, cursor := index, newest := if index > s.newest then index else s.newest)
    case Churn => s.(initial := true)
  }

  ghost predicate Increasing(xs: seq<nat>) { forall i, j :: 0 <= i < j < |xs| ==> xs[i] < xs[j] }

  function Latest(s: Slot): nat
    requires s.commits != []
  {
    s.commits[|s.commits| - 1]
  }

  /** Writes reach the server one at a time and in order. */
  ghost predicate Ordered(s: Slot) {
    && s.commits != [] && s.commits[0] == 0 && Increasing(s.commits) && Increasing(s.queue)
    && (match s.flying
        case None => true
        case Some(w) => (if w.applied then w.sequence == Latest(s) else w.sequence > Latest(s)) && w.sequence <= s.last)
    && Latest(s) <= s.last
    && (forall i :: 0 <= i < |s.queue| ==>
          Latest(s) < s.queue[i] <= s.last && (s.flying.Some? ==> s.flying.value.sequence < s.queue[i]))
  }

  /** What is expected is the largest acknowledged write. */
  ghost predicate Accounted(s: Slot) {
    && Increasing(s.acked)
    && s.expected == (if s.acked == [] then 0 else s.acked[|s.acked| - 1])
    && (forall i :: 0 <= i < |s.acked| ==> s.acked[i] in s.commits)
    && s.commits != [] && s.expected <= Latest(s)
    && (s.flying.Some? ==> s.expected < s.flying.value.sequence)
    && (forall i :: 0 <= i < |s.queue| ==> s.expected < s.queue[i])
  }

  /** What has been observed is the newest state that was shown. */
  ghost predicate Shown(s: Slot) {
    && s.cursor < |s.commits| && s.newest < |s.commits| && s.observed == s.commits[s.newest]
    && (!s.initial ==> s.cursor <= s.newest)
  }

  ghost predicate Valid(s: Slot) { Ordered(s) && Accounted(s) && Shown(s) }

  lemma OrderedKept(s: Slot, a: Action)
    requires Valid(s) && Enabled(s, a)
    ensures Ordered(Next(s, a))
  {
    match a
    case Chain(_) =>
    case Send => hide Latest;
    case Commit =>
    case _ => hide Latest, Increasing;
  }

  lemma AccountedKept(s: Slot, a: Action)
    requires Valid(s) && Enabled(s, a)
    ensures Accounted(Next(s, a))
  {}

  lemma ShownKept(s: Slot, a: Action)
    requires Valid(s) && Enabled(s, a)
    ensures Shown(Next(s, a))
  {}

  function Run(s: Slot, actions: seq<Action>): Option<Slot>
    decreases |actions|
  {
    if actions == [] then Some(s)
    else if Enabled(s, actions[0]) then Run(Next(s, actions[0]), actions[1..])
    else None
  }

  /** Every reachable slot is valid. */
  lemma {:induction false} RunValid(s: Slot, actions: seq<Action>)
    requires Valid(s) && Run(s, actions).Some?
    ensures Valid(Run(s, actions).value)
    decreases |actions|
  {
    hide Ordered, Accounted, Shown, Enabled, Next;
    if actions != [] {
      OrderedKept(s, actions[0]);
      AccountedKept(s, actions[0]);
      ShownKept(s, actions[0]);
      RunValid(Next(s, actions[0]), actions[1..]);
    }
  }

  lemma StartValid()
    ensures Valid(START)
  {}

  /** A snapshot that goes back behind one that some listener of the slot was shown before. */
  predicate GoesBack(s: Slot, a: Action) { a.Snapshot? && !s.initial && a.index < s.newest }

  function GoingBack(s: Slot, actions: seq<Action>): nat
    requires Run(s, actions).Some?
    decreases |actions|
  {
    if actions == [] then 0
    else (if GoesBack(s, actions[0]) then 1 else 0) + GoingBack(Next(s, actions[0]), actions[1..])
  }

  lemma MismatchIsGoingBack(s: Slot, a: Action)
    requires Valid(s) && Enabled(s, a)
    ensures Next(s, a).mismatches == s.mismatches + if GoesBack(s, a) then 1 else 0
  {}

  /** In every run, the mismatches counted from sequence numbers are the snapshots that go back in commit order. */
  lemma {:induction false} MismatchesCounted(s: Slot, actions: seq<Action>)
    requires Valid(s) && Run(s, actions).Some?
    ensures Run(s, actions).value.mismatches == s.mismatches + GoingBack(s, actions)
    decreases |actions|
  {
    hide Ordered, Accounted, Shown, Enabled, Next, GoesBack;
    if actions != [] {
      var a := actions[0];
      MismatchIsGoingBack(s, a);
      OrderedKept(s, a);
      AccountedKept(s, a);
      ShownKept(s, a);
      MismatchesCounted(Next(s, a), actions[1..]);
    }
  }

  /** Every replacement starts at least where the slot's listeners had got to. */
  predicate Consistent(s: Slot, actions: seq<Action>)
    requires Run(s, actions).Some?
    decreases |actions|
  {
    actions != [] ==>
      (actions[0].Snapshot? && s.initial ==> actions[0].index >= s.newest)
        && Consistent(Next(s, actions[0]), actions[1..])
  }

  /** Then no run counts a mismatch. */
  lemma {:induction false} ConsistentRunsHaveNone(s: Slot, actions: seq<Action>)
    requires Valid(s) && (!s.initial ==> s.cursor == s.newest) && Run(s, actions).Some? && Consistent(s, actions)
    ensures Run(s, actions).value.mismatches == s.mismatches
    decreases |actions|
  {
    hide Ordered, Accounted, Increasing;
    if actions != [] {
      var a := actions[0];
      OrderedKept(s, a);
      AccountedKept(s, a);
      ShownKept(s, a);
      MismatchIsGoingBack(s, a);
      ConsistentRunsHaveNone(Next(s, a), actions[1..]);
    }
  }

  lemma {:induction false} RunOne(s: Slot, a: Action, rest: seq<Action>)
    requires Enabled(s, a)
    ensures Run(s, [a] + rest) == Run(Next(s, a), rest)
  {
    assert ([a] + rest)[1..] == rest;
  }

  /** A write chained on an idle slot, sent, committed and acknowledged. */
  lemma {:induction false} RunWrite(s: Slot, n: nat, rest: seq<Action>)
    requires s.queue == [] && s.flying.None? && n > s.last
    ensures Run(s, [Chain(n), Send, Commit, Acknowledge] + rest) ==
      Run(s.(last := n, commits := s.commits + [n], acked := s.acked + [n], expected := n), rest)
  {
    hide Run;
    var s1 := Next(s, Chain(n));
    var s2 := Next(s1, Send);
    var s3 := Next(s2, Commit);
    assert s1.queue == [n] && s2.queue == [];
    RunOne(s3, Acknowledge, rest);
    RunOne(s2, Commit, [Acknowledge] + rest);
    RunOne(s1, Send, [Commit] + ([Acknowledge] + rest));
    RunOne(s, Chain(n), [Send] + ([Commit] + ([Acknowledge] + rest)));
    assert [Chain(n), Send, Commit, Acknowledge] + rest ==
      [Chain(n)] + ([Send] + ([Commit] + ([Acknowledge] + rest)));
  }

  /** Two commits are shown, then a replacement is shown the seeded state and the first of them. */
  lemma {:induction false} RunSnapshots(s: Slot)
    requires s.commits == [0, 1, 2] && s.initial && s.newest == s.observed == s.mismatches == 0
    ensures var run := Run(s, [Snapshot(2), Churn, Snapshot(0), Snapshot(1)]);
      run.Some? && run.value.mismatches == 1
  {
    hide Run;
    var s1 := Next(s, Snapshot(2));
    var s2 := Next(s1, Churn);
    var s3 := Next(s2, Snapshot(0));
    RunLast(s3, Snapshot(1));
    RunOne(s2, Snapshot(0), [Snapshot(1)]);
    RunOne(s1, Churn, [Snapshot(0)] + [Snapshot(1)]);
    RunOne(s, Snapshot(2), [Churn] + ([Snapshot(0)] + [Snapshot(1)]));
    assert [Snapshot(2), Churn, Snapshot(0), Snapshot(1)] ==
      [Snapshot(2)] + ([Churn] + ([Snapshot(0)] + [Snapshot(1)]));
  }

  lemma RunLast(s: Slot, a: Action)
    requires Enabled(s, a)
    ensures Run(s, [a]) == Some(Next(s, a))
  {}

  /** A replacement that starts behind and catches up is counted, although every listener saw the commits in order. */
  lemma {:induction false} StaleReplacementIsCounted()
    ensures var actions := [Chain(1), Send, Commit, Acknowledge, Chain(2), Send, Commit, Acknowledge,
                            Snapshot(2), Churn, Snapshot(0), Snapshot(1)];
      Run(START, actions).Some? && Run(START, actions).value.mismatches == 1
  {
    hide Run;
    var shown := [Snapshot(2), Churn, Snapshot(0), Snapshot(1)];
    var second := [Chain(2), Send, Commit, Acknowledge] + shown;
    RunWrite(START, 1, second);
    var s := START.(last := 1, commits := [0] + [1], acked := [] + [1], expected := 1);
    RunWrite(s, 2, shown);
    assert s.commits + [2] == [0, 1, 2];
    RunSnapshots(s.(last := 2, commits := s.commits + [2], acked := s.acked + [2], expected := 2));
    assert [Chain(1), Send, Commit, Acknowledge] + second ==
      [Chain(1), Send, Commit, Acknowledge, Chain(2), Send, Commit, Acknowledge,
       Snapshot(2), Churn, Snapshot(0), Snapshot(1)];
  }

  /** Nothing is queued or in flight, and the listener has been shown the latest state. */
  predicate Drained(s: Slot) {
    s.queue == [] && s.flying.None? && s.commits != [] && !s.initial && s.newest == |s.commits| - 1
  }

  /**
   * Once drained, the final-state criterion holds exactly when the latest state was not left by a write that failed.
   */
  lemma {:induction false} FinalState(actions: seq<Action>)
    requires Run(START, actions).Some? && Drained(Run(START, actions).value)
    ensures var s := Run(START, actions).value;
      s.observed == s.expected <==> Latest(s) == 0 || Latest(s) in s.acked
  {
    hide Run;
    StartValid();
    RunValid(START, actions);
    var s := Run(START, actions).value;
    if Latest(s) in s.acked {
      var i :| 0 <= i < |s.acked| && s.acked[i] == Latest(s);
    }
  }
}
