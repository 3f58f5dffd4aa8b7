/**
 * The keyed mutex as a chain of promises.
 *
 * Runs are numbered in arrival order. A run waits for the tail promise its key
 * had when it arrived; its own tail settles once that one has settled and its
 * work is over, whether the work returned or threw. Between two steps any other
 * run may take one.
 */
module KeyedMutex {
  import opened Options

  type Key = nat

  datatype Phase = Waiting | Running | Finished

  /** `previous` is the run whose tail this one waits for; none for an already resolved promise. */
  datatype Run = Run(key: Key, previous: Option<nat>, phase: Phase, settled: bool)

  datatype State = State(tails: map<Key, nat>, runs: seq<Run>)

  datatype Event =
    | Arrive(key: Key)
    | Start(run: nat)
    | Finish(run: nat, threw: bool)
    | Settle(run: nat)

  /** What a run waits for has settled. */
  predicate Released(s: State, i: nat)
    requires i < |s.runs|
  {
    s.runs[i].previous.None? || (s.runs[i].previous.value < |s.runs| && s.runs[s.runs[i].previous.value].settled)
  }

  predicate Enabled(s: State, e: Event) {
    match e
    case Arrive(_) => true
    case Start(i) => i < |s.runs| && s.runs[i].phase == Waiting && Released(s, i)
    case Finish(i, _) => i < |s.runs| && s.runs[i].phase == Running
    case Settle(i) => i < |s.runs| && s.runs[i].phase == Finished && !s.runs[i].settled && Released(s, i)
  }

  function Step(s: State, e: Event): State
    requires Enabled(s, e)
  {
    match e
    case Arrive(key) =>
      var previous := if key in s.tails then Some(s.tails[key]) else None;
      State(s.tails[key := |s.runs|], s.runs + [Run(key, previous, Waiting, false)])
    case Start(i) => s.(runs := s.runs[i := s.runs[i].(phase := Running)])
    case Finish(i, _) =>
      var key := s.runs[i].key;
      State(if key in s.tails && s.tails[key] == i then s.tails - {key} else s.tails,
            s.runs[i := s.runs[i].(phase := Finished)])
    case Settle(i) => s.(runs := s.runs[i := s.runs[i].(settled := true)])
  }

  // ----- the invariant

  /** Every run of the key that arrived before `i` is over. */
  ghost predicate EarlierFinished(s: State, i: nat, key: Key) {
    forall j | 0 <= j < i && j < |s.runs| && s.runs[j].key == key :: s.runs[j].phase == Finished
  }

  /** `p` is the last run of the key before `i`. */
  ghost predicate LastBefore(s: State, p: nat, i: nat, key: Key) {
    && p < i && p < |s.runs| && s.runs[p].key == key
    && forall j | p < j < i && j < |s.runs| :: s.runs[j].key != key
  }

  ghost predicate RunSound(s: State, i: nat)
    requires i < |s.runs|
  {
    var run := s.runs[i];
    && (run.previous.Some? ==> LastBefore(s, run.previous.value, i, run.key))
    && (run.previous.None? ==> EarlierFinished(s, i, run.key))
    && (run.phase != Waiting ==> Released(s, i) && EarlierFinished(s, i, run.key))
    && (run.settled ==> run.phase == Finished)
  }

  /** A key is in the map exactly while it has work running or waiting, under the number of its last run. */
  ghost predicate KeySound(s: State, key: Key) {
    if key in s.tails then LastBefore(s, s.tails[key], |s.runs|, key) && s.runs[s.tails[key]].phase != Finished
    else EarlierFinished(s, |s.runs|, key)
  }

  ghost predicate Invariant(s: State) {
    && (forall i {:trigger RunSound(s, i)} | 0 <= i < |s.runs| :: RunSound(s, i))
    && (forall key {:trigger KeySound(s, key)} :: KeySound(s, key))
  }

  lemma ArriveKeeps(s: State, key: Key)
    requires Invariant(s)
    ensures Invariant(Step(s, Arrive(key)))
  {
    var t := Step(s, Arrive(key));
    assert KeySound(s, key);
    forall i | 0 <= i < |t.runs| ensures RunSound(t, i) {
      if i < |s.runs| { assert RunSound(s, i); }
    }
    forall k ensures KeySound(t, k) { assert KeySound(s, k); }
  }

  /** Moving one run on does not change who arrived when, and undoes nothing that is over. */
  ghost predicate Advances(s: State, t: State) {
    && |s.runs| == |t.runs|
    && forall j | 0 <= j < |s.runs| ::
         && s.runs[j].key == t.runs[j].key && s.runs[j].previous == t.runs[j].previous
         && (s.runs[j].phase == Finished ==> t.runs[j].phase == Finished)
         && (s.runs[j].settled ==> t.runs[j].settled)
  }

  lemma OtherRuns(s: State, t: State, i: nat)
    requires Invariant(s) && Advances(s, t)
    requires forall j | 0 <= j < |s.runs| && j != i :: t.runs[j] == s.runs[j]
    ensures forall j {:trigger RunSound(t, j)} | 0 <= j < |t.runs| && j != i :: RunSound(t, j)
  {
    forall j | 0 <= j < |t.runs| && j != i ensures RunSound(t, j) { assert RunSound(s, j); }
  }

  /** A settled tail means that every run of its key up to it is over. */
  lemma ReleasedMeans(s: State, i: nat)
    requires Invariant(s) && i < |s.runs| && Released(s, i)
    ensures EarlierFinished(s, i, s.runs[i].key)
  {
    assert RunSound(s, i);
    if s.runs[i].previous.Some? {
      assert RunSound(s, s.runs[i].previous.value);
    }
  }

  lemma StartKeeps(s: State, i: nat)
    requires Invariant(s) && Enabled(s, Start(i))
    ensures Invariant(Step(s, Start(i)))
  {
    var t := Step(s, Start(i));
    OtherRuns(s, t, i);
    ReleasedMeans(s, i);
    assert RunSound(s, i);
    assert RunSound(t, i);
    forall k ensures KeySound(t, k) { assert KeySound(s, k); }
  }

  lemma FinishKeeps(s: State, i: nat, threw: bool)
    requires Invariant(s) && Enabled(s, Finish(i, threw))
    ensures Invariant(Step(s, Finish(i, threw)))
  {
    var t := Step(s, Finish(i, threw));
    OtherRuns(s, t, i);
    assert RunSound(s, i);
    assert RunSound(t, i);
    forall k ensures KeySound(t, k) { assert KeySound(s, k); }
  }

  lemma SettleKeeps(s: State, i: nat)
    requires Invariant(s) && Enabled(s, Settle(i))
    ensures Invariant(Step(s, Settle(i)))
  {
    var t := Step(s, Settle(i));
    OtherRuns(s, t, i);
    assert RunSound(s, i);
    assert RunSound(t, i);
    forall k ensures KeySound(t, k) { assert KeySound(s, k); }
  }

  // ----- every execution

  /** States linked by enabled steps, from a mutex with no runs. */
  ghost predicate IsExecution(states: seq<State>, events: seq<Event>) {
    && |states| == |events| + 1
    && states[0] == State(map[], [])
    && forall n | 0 <= n < |events| :: Enabled(states[n], events[n]) && states[n + 1] == Step(states[n], events[n])
  }

  lemma {:induction false} AlwaysSound(states: seq<State>, events: seq<Event>, n: nat)
    requires IsExecution(states, events) && n < |states|
    ensures Invariant(states[n])
  {
    if n == 0 {
      assert forall key :: KeySound(states[0], key);
    } else {
      AlwaysSound(states, events, n - 1);
      var s := states[n - 1];
      assert Enabled(s, events[n - 1]);
      match events[n - 1]
      case Arrive(key) => ArriveKeeps(s, key);
      case Start(i) => StartKeeps(s, i);
      case Finish(i, threw) => FinishKeeps(s, i, threw);
      case Settle(i) => SettleKeeps(s, i);
    }
  }

  /** In every reachable state at most one run of a key executes, and none has begun before an earlier one of its key was over. */
  lemma MutualExclusion(states: seq<State>, events: seq<Event>, n: nat, i: nat, j: nat)
    requires IsExecution(states, events) && n < |states|
    requires i < j < |states[n].runs| && states[n].runs[i].key == states[n].runs[j].key
    ensures states[n].runs[j].phase != Waiting ==> states[n].runs[i].phase == Finished
    ensures !(states[n].runs[i].phase == Running && states[n].runs[j].phase == Running)
  {
    AlwaysSound(states, events, n);
    assert RunSound(states[n], j);
  }

  /** In every reachable state the map holds a key exactly while one of its runs is not over. */
  lemma KeyInMapExactly(states: seq<State>, events: seq<Event>, n: nat, key: Key)
    requires IsExecution(states, events) && n < |states|
    ensures key in states[n].tails
            <==> exists k :: 0 <= k < |states[n].runs| && states[n].runs[k].key == key && states[n].runs[k].phase != Finished
  {
    AlwaysSound(states, events, n);
    assert KeySound(states[n], key);
  }

  /** Some step is enabled, without new arrivals, while a run is not over or a tail has not settled. */
  lemma NeverStuck(states: seq<State>, events: seq<Event>, n: nat) returns (e: Event)
    requires IsExecution(states, events) && n < |states|
    requires exists k :: 0 <= k < |states[n].runs| && !states[n].runs[k].settled
    ensures !e.Arrive? && Enabled(states[n], e)
  {
    AlwaysSound(states, events, n);
    var s := states[n];
    var k: nat :| k < |s.runs| && !s.runs[k].settled && forall j | 0 <= j < k :: s.runs[j].settled by { FirstUnsettled(s); }
    assert RunSound(s, k);
    e := match s.runs[k].phase case Waiting => Start(k) case Running => Finish(k, false) case Finished => Settle(k);
  }

  lemma FirstUnsettled(s: State)
    requires exists k :: 0 <= k < |s.runs| && !s.runs[k].settled
    ensures exists k: nat :: k < |s.runs| && !s.runs[k].settled && forall j | 0 <= j < k :: s.runs[j].settled
  {
    var k := 0;
    while s.runs[k].settled
      invariant 0 <= k < |s.runs| && forall j | 0 <= j < k :: s.runs[j].settled
      decreases |s.runs| - k
    {
      k := k + 1;
    }
  }

  /** Steps left until every run is over and every tail settled. */
  ghost function Remaining(runs: seq<Run>): nat {
    if runs == [] then 0 else Remaining(runs[..|runs| - 1]) + Left(runs[|runs| - 1])
  }

  ghost function Left(run: Run): nat {
    if run.settled then 0 else match run.phase case Waiting => 3 case Running => 2 case Finished => 1
  }

  lemma {:induction false} RemainingAt(runs: seq<Run>, i: nat, run: Run)
    requires i < |runs|
    ensures Remaining(runs[i := run]) == Remaining(runs) - Left(runs[i]) + Left(run)
  {
    var n := |runs| - 1;
    if i < n {
      RemainingAt(runs[..n], i, run);
      assert runs[i := run][..n] == runs[..n][i := run];
    } else {
      assert runs[i := run][..n] == runs[..n];
    }
  }

  /** Every step but an arrival brings the end one step closer, so pending work always drains. */
  lemma EveryStepCounts(states: seq<State>, events: seq<Event>, n: nat)
    requires IsExecution(states, events) && n < |events| && !events[n].Arrive?
    ensures Remaining(states[n + 1].runs) == Remaining(states[n].runs) - 1
  {
    AlwaysSound(states, events, n);
    var s, e := states[n], events[n];
    assert Enabled(s, e);
    assert RunSound(s, e.run);
    RemainingAt(s.runs, e.run, Step(s, e).runs[e.run]);
  }

  // ----- the class

  /** `tails` is the map of the class; `runs` stands for the promises the calls hold. */
  class KeyedMutex {
    var tails: map<Key, nat>
    var runs: seq<Run>

    ghost function Chain(): State
      reads this
    {
      State(tails, runs)
    }

    constructor ()
      ensures Chain() == State(map[], []) && Invariant(Chain())
    {
      tails, runs := map[], [];
      new;
      assert forall key :: KeySound(Chain(), key);
    }

    /** A call up to its first await: it takes the key's tail and puts its own there. */
    method Enter(key: Key) returns (run: nat)
      requires Invariant(Chain())
      modifies this
      ensures run == |old(runs)| && Chain() == Step(old(Chain()), Arrive(key)) && Invariant(Chain())
    {
      ArriveKeeps(Chain(), key);
      run := |runs|;
      var previous := if key in tails then Some(tails[key]) else None;
      runs := runs + [Run(key, previous, Waiting, false)];
      tails := tails[key := run];
    }

    /** The await returns: the work begins, and every earlier run of the key is over. */
    method Begin(run: nat)
      requires Invariant(Chain()) && Enabled(Chain(), Start(run))
      modifies this`runs
      ensures Chain() == Step(old(Chain()), Start(run)) && Invariant(Chain())
      ensures EarlierFinished(Chain(), run, runs[run].key)
    {
      StartKeeps(Chain(), run);
      ReleasedMeans(Chain(), run);
      runs := runs[run := runs[run].(phase := Running)];
    }

    /** The work returns or throws: its promise is released, and the key leaves the map if no one came after. */
    method Exit(run: nat, threw: bool)
      requires Invariant(Chain()) && Enabled(Chain(), Finish(run, threw))
      modifies this
      ensures Chain() == Step(old(Chain()), Finish(run, threw)) && Invariant(Chain())
    {
      FinishKeeps(Chain(), run, threw);
      var key := runs[run].key;
      runs := runs[run := runs[run].(phase := Finished)];
      if key in tails && tails[key] == run { tails := tails - {key}; }
    }

    /** The number of keys with work running or waiting. */
    method Size() returns (size: nat)
      requires Invariant(Chain())
      ensures size == |tails|
      ensures forall key :: key in tails <==> exists k :: 0 <= k < |runs| && runs[k].key == key && runs[k].phase != Finished
    {
      size := |tails|;
      forall key
        ensures key in tails <==> exists k :: 0 <= k < |runs| && runs[k].key == key && runs[k].phase != Finished
      {
        assert KeySound(Chain(), key);
      }
    }
  }
}
