/**
 * The checkpoint coalescer as a state machine over its critical sections: staging an intent, the timer firing,
 * one capture of a sweep, and a sweep ending, in any interleaving.
 */
module CheckpointCoalescing {
  import opened Options

  datatype Key = Key(backendId: string, sessionId: string)

  datatype Intent = Intent(key: Key, turn: int)

  /**
   * `timers` counts the callbacks scheduled and not yet run, `sweeps` holds what each running sweep has still to
   * capture. `staged` and `attempted` are the history: the last turn staged by session, and every capture tried.
   */
  datatype State = State(
    intents: map<Key, int>,
    inflight: bool,
    timer: bool,
    timers: nat,
    sweeps: seq<seq<Intent>>,
    staged: map<Key, int>,
    attempted: seq<Intent>)

  const EMPTY := State(map[], false, false, 0, [], map[], [])

  datatype Step =
    | Stage(key: Key, turn: int)
    | Fire(order: seq<Key>)
    | Capture(sweep: nat)
    | EndSweep(sweep: nat)

  predicate Acceptable(key: Key, turn: int) {
    key.backendId != "" && key.sessionId != "" && turn > 0
  }

  function StageIntent(c: State, key: Key, turn: int): State {
    if !Acceptable(key, turn) then c
    else
      var arm := !c.inflight && !c.timer;
      c.(intents := c.intents[key := turn], staged := c.staged[key := turn], timer := c.timer || arm,
         timers := if arm then c.timers + 1 else c.timers)
  }

  /** Whether the list names every pending session once, as iterating the map does. */
  predicate Enumerates(order: seq<Key>, intents: map<Key, int>) {
    && (forall i, j | 0 <= i < j < |order| :: order[i] != order[j])
    && (forall i | 0 <= i < |order| :: order[i] in intents)
    && (forall k | k in intents :: k in order)
  }

  function Snapshot(order: seq<Key>, intents: map<Key, int>): (pending: seq<Intent>)
    requires forall i | 0 <= i < |order| :: order[i] in intents
    ensures |pending| == |order| && forall i | 0 <= i < |order| :: pending[i] == Intent(order[i], intents[order[i]])
  {
    seq(|order|, i requires 0 <= i < |order| => Intent(order[i], intents[order[i]]))
  }

  function Drain(c: State, order: seq<Key>): State
    requires c.timers > 0 && Enumerates(order, c.intents)
  {
    if c.inflight then c.(timer := false, timers := c.timers - 1)
    else
      c.(intents := map[], timer := false, timers := c.timers - 1, inflight := true,
         sweeps := c.sweeps + [Snapshot(order, c.intents)])
  }

  function CaptureNext(c: State, sweep: nat): State
    requires sweep < |c.sweeps| && c.sweeps[sweep] != []
  {
    c.(sweeps := c.sweeps[sweep := c.sweeps[sweep][1..]], attempted := c.attempted + [c.sweeps[sweep][0]])
  }

  /** The sweep is over; intents staged meanwhile arm the timer again. */
  function FinishSweep(c: State, sweep: nat): State
    requires sweep < |c.sweeps|
  {
    var rearm := |c.intents| > 0;
    c.(inflight := false, sweeps := c.sweeps[..sweep] + c.sweeps[sweep + 1..],
       timer := c.timer || rearm, timers := if rearm then c.timers + 1 else c.timers)
  }

  predicate Enabled(c: State, step: Step) {
    match step
    case Stage(_, _) => true
    case Fire(order) => c.timers > 0 && Enumerates(order, c.intents)
    case Capture(sweep) => sweep < |c.sweeps| && c.sweeps[sweep] != []
    case EndSweep(sweep) => sweep < |c.sweeps| && c.sweeps[sweep] == []
  }

  function Next(c: State, step: Step): State
    requires Enabled(c, step)
  {
    match step
    case Stage(key, turn) => StageIntent(c, key, turn)
    case Fire(order) => Drain(c, order)
    case Capture(sweep) => CaptureNext(c, sweep)
    case EndSweep(sweep) => FinishSweep(c, sweep)
  }

  /** States reached by a run in which every step is enabled when it is taken. */
  predicate Reaches(states: seq<State>, steps: seq<Step>) {
    && |states| == |steps| + 1 && states[0] == EMPTY
    && forall i: nat | i < |steps| :: Follows(states[i], steps[i], states[i + 1])
  }

  predicate Follows(c: State, step: Step, after: State) {
    Enabled(c, step) && after == Next(c, step)
  }

  // ---- Invariants ----

  function LastAttempt(attempted: seq<Intent>, key: Key): Option<int> {
    if attempted == [] then None
    else
      var last := attempted[|attempted| - 1];
      if last.key == key then Some(last.turn) else LastAttempt(attempted[..|attempted| - 1], key)
  }

  /** The turn a sweep has still to capture for a session. */
  function Pending(sweep: seq<Intent>, key: Key): Option<int> {
    if sweep == [] then None
    else if sweep[0].key == key then Some(sweep[0].turn)
    else Pending(sweep[1..], key)
  }

  predicate OncePerKey(sweep: seq<Intent>) {
    forall i, j | 0 <= i < j < |sweep| :: sweep[i].key != sweep[j].key
  }

  function Sweeping(c: State): seq<Intent> {
    if |c.sweeps| == 1 then c.sweeps[0] else []
  }

  /** One sweep at most, one timer at most, never both, and intents waiting for one of them. */
  predicate Mechanism(c: State) {
    && |c.sweeps| == (if c.inflight then 1 else 0)
    && c.timers == (if c.timer then 1 else 0)
    && !(c.inflight && c.timer)
    && (c.timer ==> c.intents != map[])
    && (c.intents != map[] ==> c.timer || c.inflight)
  }

  /** Where the last turn staged for a session is: still an intent, else in the sweep, else the last one captured. */
  function Standing(c: State, key: Key): Option<int> {
    if key in c.intents then Some(c.intents[key])
    else if Pending(Sweeping(c), key).Some? then Pending(Sweeping(c), key)
    else LastAttempt(c.attempted, key)
  }

  ghost predicate LastTurnKept(c: State) {
    OncePerKey(Sweeping(c)) && forall key :: Standing(c, key) == Lookup(c.staged, key)
  }

  lemma StepKeepsMechanism(c: State, step: Step)
    requires Mechanism(c) && Enabled(c, step)
    ensures Mechanism(Next(c, step))
  {
    if step.Stage? {
      assert step.key in c.intents[step.key := step.turn];
    }
  }

  /** A sweep holds for each session the intent it had, in whatever order. */
  lemma {:induction false} SnapshotPending(order: seq<Key>, intents: map<Key, int>, key: Key)
    requires forall i | 0 <= i < |order| :: order[i] in intents
    ensures Pending(Snapshot(order, intents), key) == if key in order then Some(intents[key]) else None
  {
    if order != [] {
      SnapshotPending(order[1..], intents, key);
      assert Snapshot(order, intents)[1..] == Snapshot(order[1..], intents);
      assert order == [order[0]] + order[1..];
    }
  }

  lemma {:induction false} PendingIsMember(sweep: seq<Intent>, key: Key)
    ensures Pending(sweep, key).Some? ==> exists i :: 0 <= i < |sweep| && sweep[i].key == key
  {
    if sweep != [] && sweep[0].key != key {
      PendingIsMember(sweep[1..], key);
      if Pending(sweep, key).Some? {
        var i :| 0 <= i < |sweep[1..]| && sweep[1..][i].key == key;
        assert sweep[i + 1].key == key;
      }
    }
  }

  lemma FireKeepsLastTurn(c: State, order: seq<Key>)
    requires Mechanism(c) && LastTurnKept(c) && Enabled(c, Fire(order))
    ensures LastTurnKept(Drain(c, order))
  {
    var after := Drain(c, order);
    assert Sweeping(after) == Snapshot(order, c.intents);
    forall key ensures Standing(after, key) == Standing(c, key) {
      SnapshotPending(order, c.intents, key);
    }
  }

  lemma CaptureKeepsLastTurn(c: State, sweep: nat)
    requires Mechanism(c) && LastTurnKept(c) && Enabled(c, Capture(sweep))
    ensures LastTurnKept(CaptureNext(c, sweep))
  {
    var after, head := CaptureNext(c, sweep), c.sweeps[sweep][0];
    assert Sweeping(c) == c.sweeps[0] && Sweeping(after) == Sweeping(c)[1..];
    assert after.attempted[..|c.attempted|] == c.attempted;
    forall key ensures Standing(after, key) == Standing(c, key) {
      if key == head.key {
        PendingIsMember(Sweeping(after), key);
      }
    }
  }

  lemma StepKeepsLastTurn(c: State, step: Step)
    requires Mechanism(c) && LastTurnKept(c) && Enabled(c, step)
    ensures LastTurnKept(Next(c, step))
  {
    match step
    case Stage(key, turn) =>
      var after := Next(c, step);
      assert Sweeping(after) == Sweeping(c);
      forall k ensures Standing(after, k) == Lookup(after.staged, k) {
        assert Standing(c, k) == Lookup(c.staged, k);
      }
    case Fire(order) => FireKeepsLastTurn(c, order);
    case Capture(sweep) => CaptureKeepsLastTurn(c, sweep);
    case EndSweep(sweep) => assert Sweeping(c) == [] == Sweeping(Next(c, step));
  }

  /** In every interleaving the mechanism holds and no session's last staged turn gets lost. */
  lemma {:induction false} CoalescerSafety(states: seq<State>, steps: seq<Step>)
    requires Reaches(states, steps)
    ensures Mechanism(states[|steps|]) && LastTurnKept(states[|steps|])
  {
    if steps == [] {
      assert Sweeping(EMPTY) == [];
    } else {
      var n := |steps| - 1;
      assert forall i: nat | i < n :: Follows(states[i], steps[i], states[i + 1]);
      assert forall i: nat | i < n :: Follows(states[..n + 1][i], steps[..n][i], states[..n + 1][i + 1]);
      CoalescerSafety(states[..n + 1], steps[..n]);
      assert Follows(states[n], steps[n], states[n + 1]);
      StepKeepsMechanism(states[n], steps[n]);
      StepKeepsLastTurn(states[n], steps[n]);
    }
  }

  /** The turn last staged for a session: one with both names and a positive turn, the others being ignored. */
  function LastStaged(steps: seq<Step>, key: Key): Option<int> {
    if steps == [] then None
    else
      var last := steps[|steps| - 1];
      if last.Stage? && last.key == key && key.backendId != "" && key.sessionId != "" && last.turn > 0 then
        Some(last.turn)
      else LastStaged(steps[..|steps| - 1], key)
  }

  lemma ReachesPrefix(states: seq<State>, steps: seq<Step>)
    requires Reaches(states, steps) && steps != []
    ensures var n := |steps| - 1;
            Reaches(states[..n + 1], steps[..n]) && Follows(states[n], steps[n], states[n + 1])
  {
    var n := |steps| - 1;
    forall i: nat | i < n ensures Follows(states[..n + 1][i], steps[..n][i], states[..n + 1][i + 1]) {
      assert Follows(states[i], steps[i], states[i + 1]);
    }
  }

  /** The history agrees with the calls: what is staged last is what was staged last. */
  lemma {:induction false} StagedIsLastCall(states: seq<State>, steps: seq<Step>, key: Key)
    requires Reaches(states, steps)
    ensures Lookup(states[|steps|].staged, key) == LastStaged(steps, key)
  {
    if steps != [] {
      var n := |steps| - 1;
      ReachesPrefix(states, steps);
      StagedIsLastCall(states[..n + 1], steps[..n], key);
    }
  }

  predicate StagedAs(steps: seq<Step>, intent: Intent) {
    exists i :: 0 <= i < |steps| && steps[i] == Stage(intent.key, intent.turn)
  }

  lemma StagedAsLonger(steps: seq<Step>, intent: Intent)
    requires steps != [] && StagedAs(steps[..|steps| - 1], intent)
    ensures StagedAs(steps, intent)
  {
    var i :| 0 <= i < |steps| - 1 && steps[..|steps| - 1][i] == Stage(intent.key, intent.turn);
    assert steps[i] == Stage(intent.key, intent.turn);
  }

  /** An intent the coalescer has in hand: waiting, in a sweep, or tried. */
  predicate InHand(c: State, intent: Intent) {
    || (intent.key in c.intents && c.intents[intent.key] == intent.turn)
    || (exists k :: 0 <= k < |c.sweeps| && intent in c.sweeps[k])
    || intent in c.attempted
  }

  lemma StepTakesUp(c: State, step: Step, intent: Intent)
    requires Enabled(c, step) && InHand(Next(c, step), intent)
    ensures InHand(c, intent) || step == Stage(intent.key, intent.turn)
  {
    var next := Next(c, step);
    match step
    case Fire(order) =>
      if !c.inflight && intent in Snapshot(order, c.intents) { assert intent.key in c.intents; }
    case Capture(sweep) =>
      assert c.sweeps[sweep][0] in c.sweeps[sweep];
      if k :| 0 <= k < |next.sweeps| && intent in next.sweeps[k] {
        assert intent in c.sweeps[k];
      }
    case EndSweep(sweep) =>
      if k :| 0 <= k < |next.sweeps| && intent in next.sweeps[k] {
        assert intent in c.sweeps[if k < sweep then k else k + 1];
      }
    case _ =>
  }

  /** In every interleaving whatever is captured was staged: no turn is made up, and none is taken from another. */
  lemma {:induction false} CapturesWereStaged(states: seq<State>, steps: seq<Step>, intent: Intent)
    requires Reaches(states, steps) && InHand(states[|steps|], intent)
    ensures StagedAs(steps, intent)
  {
    if steps != [] {
      var n := |steps| - 1;
      ReachesPrefix(states, steps);
      StepTakesUp(states[n], steps[n], intent);
      if InHand(states[n], intent) {
        CapturesWereStaged(states[..n + 1], steps[..n], intent);
        StagedAsLonger(steps, intent);
      } else {
        assert steps[n] == Stage(intent.key, intent.turn);
      }
    }
  }

  predicate Quiet(c: State) {
    c.timers == 0 && c.sweeps == []
  }

  /** At rest nothing is pending, and each session's last capture was of the turn its last good call staged. */
  lemma QuietIsUpToDate(states: seq<State>, steps: seq<Step>, key: Key)
    requires Reaches(states, steps) && Quiet(states[|steps|])
    ensures states[|steps|].intents == map[]
    ensures LastAttempt(states[|steps|].attempted, key) == Lookup(states[|steps|].staged, key) == LastStaged(steps, key)
  {
    CoalescerSafety(states, steps);
    StagedIsLastCall(states, steps, key);
    assert Standing(states[|steps|], key) == LastAttempt(states[|steps|].attempted, key);
  }

  function Work(c: State): nat {
    3 * |c.intents| + 4 * c.timers + if |c.sweeps| == 1 then |c.sweeps[0]| + 5 else 0
  }

  lemma OrderLength(order: seq<Key>, intents: map<Key, int>)
    requires Enumerates(order, intents)
    ensures |order| == |intents|
  {
    ListedOnce(order);
    assert (set k | k in order) == intents.Keys;
  }

  lemma {:induction false} ListedOnce(order: seq<Key>)
    requires forall i, j | 0 <= i < j < |order| :: order[i] != order[j]
    ensures |set k | k in order| == |order|
  {
    if order != [] {
      ListedOnce(order[1..]);
      assert (set k | k in order) == (set k | k in order[1..]) + {order[0]};
    }
  }

  lemma {:induction false} Listing(keys: set<Key>) returns (order: seq<Key>)
    ensures forall i, j | 0 <= i < j < |order| :: order[i] != order[j]
    ensures forall k :: k in order <==> k in keys
    decreases keys
  {
    if keys == {} {
      order := [];
    } else {
      var k :| k in keys;
      var rest := Listing(keys - {k});
      order := [k] + rest;
    }
  }

  /** Unless at rest some step other than staging is enabled, so the coalescer never stalls. */
  lemma NeverStalls(c: State) returns (step: Step)
    requires Mechanism(c) && !Quiet(c)
    ensures !step.Stage? && Enabled(c, step)
  {
    if c.timers > 0 {
      var order := Listing(c.intents.Keys);
      step := Fire(order);
    } else if c.sweeps[0] == [] {
      step := EndSweep(0);
    } else {
      step := Capture(0);
    }
  }

  /** And every such step leaves less to do, so once staging stops the coalescer comes to rest. */
  lemma StepsUseUpWork(c: State, step: Step)
    requires Mechanism(c) && !step.Stage? && Enabled(c, step)
    ensures Work(Next(c, step)) < Work(c)
  {
    if step.Fire? {
      OrderLength(step.order, c.intents);
      assert |c.intents| > 0;
    }
  }
}
