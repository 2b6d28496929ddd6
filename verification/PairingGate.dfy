/**
 * The gate in front of pairing claims: sliding windows of attempts by source and of failures by pairing,
 * swept lazily and capped in number, and a cap on concurrent claims.
 */
module PairingGate {
  import opened Options

  // Times and windows are in milliseconds.
  const SOURCE_LIMIT: nat := 10
  const SOURCE_WINDOW: nat := 60 * 1000
  const FAIL_LIMIT: nat := 5
  const FAIL_WINDOW: nat := 5 * 60 * 1000
  const MAX_CLAIMS: nat := 16
  const MAX_BUCKETS: nat := 4096

  /** The stamps of each key's bucket. */
  type Buckets = map<string, seq<int>>

  /** The stamps still inside the window that ends now. */
  function Fresh(stamps: seq<int>, now: int, window: nat): (r: seq<int>)
    ensures |r| <= |stamps|
  {
    if stamps == [] then []
    else
      var n := |stamps| - 1;
      Fresh(stamps[..n], now, window) + if stamps[n] > now - window then [stamps[n]] else []
  }

  function Sweep(m: Buckets, now: int, window: nat): Buckets {
    map k | k in m && Fresh(m[k], now, window) != [] :: Fresh(m[k], now, window)
  }

  datatype Verdict = NoBucket | Denied | Allowed

  /** What an attempt at a key of the swept buckets comes to: a full map takes no new key. */
  function VerdictOf(m: Buckets, k: string, now: int, window: nat, limit: nat): Verdict {
    if k !in m && |m| >= MAX_BUCKETS then NoBucket
    else if |Fresh(GetOr(m, k, []), now, window)| >= limit then Denied
    else Allowed
  }

  function Attempt(m: Buckets, k: string, now: int, window: nat, limit: nat): Buckets {
    var live := Fresh(GetOr(m, k, []), now, window);
    match VerdictOf(m, k, now, window, limit)
    case NoBucket => m
    case Denied => m[k := live]
    case Allowed => m[k := live + [now]]
  }

  datatype Gate = Gate(sources: Buckets, failures: Buckets, activeClaims: int)

  function SweepGate(g: Gate, now: int): Gate {
    g.(sources := Sweep(g.sources, now, SOURCE_WINDOW), failures := Sweep(g.failures, now, FAIL_WINDOW))
  }

  /** Whether the attempt gets in: past its source's window and under the cap on concurrent claims. */
  predicate Admits(g: Gate, ip: string, now: int) {
    VerdictOf(SweepGate(g, now).sources, ip, now, SOURCE_WINDOW, SOURCE_LIMIT).Allowed? && g.activeClaims < MAX_CLAIMS
  }

  function Acquire(g: Gate, ip: string, now: int): Gate {
    var swept := SweepGate(g, now);
    swept.(sources := Attempt(swept.sources, ip, now, SOURCE_WINDOW, SOURCE_LIMIT),
           activeClaims := if Admits(g, ip, now) then g.activeClaims + 1 else g.activeClaims)
  }

  function Release(g: Gate): Gate {
    g.(activeClaims := if g.activeClaims - 1 < 0 then 0 else g.activeClaims - 1)
  }

  function RecordFailure(g: Gate, pairingId: string, now: int): Gate {
    var swept := SweepGate(g, now);
    swept.(failures := Attempt(swept.failures, pairingId, now, FAIL_WINDOW, FAIL_LIMIT))
  }

  /** Whether the failure ends the pairing session. */
  predicate Locks(g: Gate, pairingId: string, now: int) {
    var swept := SweepGate(g, now).failures;
    && !VerdictOf(swept, pairingId, now, FAIL_WINDOW, FAIL_LIMIT).NoBucket?
    && |GetOr(Attempt(swept, pairingId, now, FAIL_WINDOW, FAIL_LIMIT), pairingId, [])| >= FAIL_LIMIT
  }

  function ResetFailures(g: Gate, pairingId: string): Gate {
    g.(failures := g.failures - {pairingId})
  }

  // ---- Runs, with the full history of stamps taken beside the gate ----

  /** `sourceLog` is every stamp ever taken by a source; `failLog` every one by a pairing since its last reset. */
  datatype World = World(gate: Gate, clock: int, sourceLog: Buckets, failLog: Buckets)

  datatype Step =
    | AcquireStep(ip: string, now: int)
    | ReleaseStep
    | FailStep(pairingId: string, now: int)
    | ResetStep(pairingId: string)

  function Logged(log: Buckets, k: string, now: int, v: Verdict): Buckets {
    if v.Allowed? then log[k := GetOr(log, k, []) + [now]] else log
  }

  function Next(w: World, step: Step): World {
    match step
    case AcquireStep(ip, now) =>
      var v := VerdictOf(SweepGate(w.gate, now).sources, ip, now, SOURCE_WINDOW, SOURCE_LIMIT);
      World(Acquire(w.gate, ip, now), now, Logged(w.sourceLog, ip, now, v), w.failLog)
    case ReleaseStep => w.(gate := Release(w.gate))
    case FailStep(id, now) =>
      var v := VerdictOf(SweepGate(w.gate, now).failures, id, now, FAIL_WINDOW, FAIL_LIMIT);
      World(RecordFailure(w.gate, id, now), now, w.sourceLog, Logged(w.failLog, id, now, v))
    case ResetStep(id) => w.(gate := ResetFailures(w.gate, id), failLog := w.failLog - {id})
  }

  function Start(clock: int): World {
    World(Gate(map[], map[], 0), clock, map[], map[])
  }

  function Run(clock: int, steps: seq<Step>): World {
    if steps == [] then Start(clock) else Next(Run(clock, steps[..|steps| - 1]), steps[|steps| - 1])
  }

  predicate Timely(w: World, step: Step) {
    (step.AcquireStep? || step.FailStep?) ==> w.clock <= step.now
  }

  /** The clock never goes back. */
  predicate ClockRuns(clock: int, steps: seq<Step>) {
    steps != [] ==>
      ClockRuns(clock, steps[..|steps| - 1]) && Timely(Run(clock, steps[..|steps| - 1]), steps[|steps| - 1])
  }

  /** At each stamp, the window that ends there holds at most `limit` of the stamps up to it. */
  predicate Limited(times: seq<int>, window: nat, limit: nat) {
    times != [] ==>
      var n := |times| - 1;
      |Fresh(times, times[n], window)| <= limit && Limited(times[..n], window, limit)
  }

  /** A bucket holds exactly the fresh part of its key's history, and is not there when that is empty. */
  ghost predicate Agree(m: Buckets, log: Buckets, clock: int, window: nat, limit: nat) {
    && |m| <= MAX_BUCKETS
    && (forall k | k in log :: Limited(log[k], window, limit))
    && (forall k :: GetOr(m, k, []) == Fresh(GetOr(log, k, []), clock, window))
    && (forall k | k in m :: m[k] != [])
  }

  ghost predicate Inv(w: World) {
    && Agree(w.gate.sources, w.sourceLog, w.clock, SOURCE_WINDOW, SOURCE_LIMIT)
    && Agree(w.gate.failures, w.failLog, w.clock, FAIL_WINDOW, FAIL_LIMIT)
    && 0 <= w.gate.activeClaims <= MAX_CLAIMS
  }

  lemma FreshSnoc(stamps: seq<int>, last: int, now: int, window: nat)
    ensures Fresh(stamps + [last], now, window) ==
            Fresh(stamps, now, window) + if last > now - window then [last] else []
  {
    assert (stamps + [last])[..|stamps|] == stamps;
  }

  /** Filtering at a later time forgets that it was filtered before. */
  lemma {:induction false} FreshTwice(stamps: seq<int>, early: int, late: int, window: nat)
    requires early <= late
    ensures Fresh(Fresh(stamps, early, window), late, window) == Fresh(stamps, late, window)
  {
    if stamps != [] {
      var front, last := stamps[..|stamps| - 1], stamps[|stamps| - 1];
      FreshTwice(front, early, late, window);
      assert stamps == front + [last];
      FreshSnoc(front, last, early, window);
      FreshSnoc(front, last, late, window);
      FreshSnoc(Fresh(front, early, window), last, late, window);
      if last <= early - window {
        assert Fresh(stamps, early, window) == Fresh(front, early, window);
        assert Fresh(stamps, late, window) == Fresh(front, late, window);
      }
    }
  }

  /** Sweeping at a later time keeps agreement, at that time. */
  lemma SweepKeepsAgree(m: Buckets, log: Buckets, clock: int, now: int, window: nat, limit: nat)
    requires Agree(m, log, clock, window, limit) && clock <= now
    ensures Agree(Sweep(m, now, window), log, now, window, limit)
  {
    var swept := Sweep(m, now, window);
    SweepShrinks(m, now, window);
    forall k ensures GetOr(swept, k, []) == Fresh(GetOr(log, k, []), now, window) {
      FreshTwice(GetOr(log, k, []), clock, now, window);
    }
  }

  lemma SweepShrinks(m: Buckets, now: int, window: nat)
    ensures |Sweep(m, now, window)| <= |m|
  {
    var kept := Sweep(m, now, window).Keys;
    assert m.Keys == kept + (m.Keys - kept);
    assert |m.Keys| == |kept| + |m.Keys - kept|;
  }

  /** A stamp taken while fewer than the limit are fresh keeps every window within it. */
  lemma LimitedSnoc(times: seq<int>, now: int, window: nat, limit: nat)
    requires Limited(times, window, limit) && |Fresh(times, now, window)| < limit
    ensures Limited(times + [now], window, limit)
  {
    FreshSnoc(times, now, now, window);
    assert (times + [now])[..|times|] == times;
  }

  lemma InsertedSize(m: Buckets, k: string, stamps: seq<int>)
    ensures |m[k := stamps]| == if k in m then |m| else |m| + 1
  {
    var m' := m[k := stamps];
    assert m'.Keys == m.Keys + {k} && |m'.Keys| == |m'| && |m.Keys| == |m|;
    assert k in m ==> m'.Keys == m.Keys;
  }

  lemma AllowedKeepsAgree(m: Buckets, log: Buckets, k: string, now: int, window: nat, limit: nat)
    requires Agree(m, log, now, window, limit) && window > 0 && |GetOr(m, k, [])| < limit
    requires k in m || |m| < MAX_BUCKETS
    ensures Agree(m[k := GetOr(m, k, []) + [now]], log[k := GetOr(log, k, []) + [now]], now, window, limit)
  {
    var before, stamps := GetOr(m, k, []), GetOr(log, k, []);
    LimitedSnoc(stamps, now, window, limit);
    FreshSnoc(stamps, now, now, window);
    InsertedSize(m, k, before + [now]);
    StampKeepsAgree(m, log, k, before + [now], stamps + [now], now, window, limit);
  }

  /** A key's bucket and history replaced together, the one by the fresh part of the other. */
  lemma StampKeepsAgree(m: Buckets, log: Buckets, k: string, bucket: seq<int>, stamps: seq<int>, now: int, window: nat,
                        limit: nat)
    requires Agree(m, log, now, window, limit) && |m[k := bucket]| <= MAX_BUCKETS
    requires bucket != [] && bucket == Fresh(stamps, now, window) && Limited(stamps, window, limit)
    ensures Agree(m[k := bucket], log[k := stamps], now, window, limit)
  {
    var m', log' := m[k := bucket], log[k := stamps];
    forall j ensures GetOr(m', j, []) == Fresh(GetOr(log', j, []), now, window) {
      assert j != k ==> GetOr(m', j, []) == GetOr(m, j, []) && GetOr(log', j, []) == GetOr(log, j, []);
    }
  }

  /** An attempt on swept buckets keeps agreement with the history it extends. */
  lemma AttemptKeepsAgree(m: Buckets, log: Buckets, k: string, now: int, window: nat, limit: nat)
    requires Agree(m, log, now, window, limit) && window > 0 && limit > 0
    ensures Agree(Attempt(m, k, now, window, limit), Logged(log, k, now, VerdictOf(m, k, now, window, limit)),
                  now, window, limit)
  {
    FreshTwice(GetOr(log, k, []), now, now, window);
    match VerdictOf(m, k, now, window, limit)
    case Allowed => AllowedKeepsAgree(m, log, k, now, window, limit);
    case Denied =>
      assert k in m && m[k := m[k]] == m;
    case NoBucket =>
  }

  lemma StepKeepsInv(w: World, step: Step)
    requires Inv(w) && Timely(w, step)
    ensures Inv(Next(w, step))
  {
    match step
    case AcquireStep(ip, now) =>
      SweepKeepsAgree(w.gate.sources, w.sourceLog, w.clock, now, SOURCE_WINDOW, SOURCE_LIMIT);
      SweepKeepsAgree(w.gate.failures, w.failLog, w.clock, now, FAIL_WINDOW, FAIL_LIMIT);
      AttemptKeepsAgree(SweepGate(w.gate, now).sources, w.sourceLog, ip, now, SOURCE_WINDOW, SOURCE_LIMIT);
    case FailStep(id, now) =>
      SweepKeepsAgree(w.gate.sources, w.sourceLog, w.clock, now, SOURCE_WINDOW, SOURCE_LIMIT);
      SweepKeepsAgree(w.gate.failures, w.failLog, w.clock, now, FAIL_WINDOW, FAIL_LIMIT);
      AttemptKeepsAgree(SweepGate(w.gate, now).failures, w.failLog, id, now, FAIL_WINDOW, FAIL_LIMIT);
    case ReleaseStep =>
    case ResetStep(id) =>
      ResetKeepsAgree(w.gate.failures, w.failLog, id, w.clock, FAIL_WINDOW, FAIL_LIMIT);
  }

  lemma ResetKeepsAgree(m: Buckets, log: Buckets, k: string, clock: int, window: nat, limit: nat)
    requires Agree(m, log, clock, window, limit)
    ensures Agree(m - {k}, log - {k}, clock, window, limit)
  {
    assert (m - {k}).Keys == m.Keys - {k};
  }

  /** Buckets are exactly the fresh history, at most so many, and claims stay between nought and the cap. */
  lemma {:induction false} GateSafety(clock: int, steps: seq<Step>)
    requires ClockRuns(clock, steps)
    ensures Inv(Run(clock, steps))
  {
    if steps != [] {
      GateSafety(clock, steps[..|steps| - 1]);
      StepKeepsInv(Run(clock, steps[..|steps| - 1]), steps[|steps| - 1]);
    }
  }

  /** How many of the times lie after `from` and not after `to`. */
  function CountWithin(times: seq<int>, from: int, to: int): nat {
    if times == [] then 0
    else
      var n := |times| - 1;
      CountWithin(times[..n], from, to) + if from < times[n] <= to then 1 else 0
  }

  /** Wherever a window lies, it holds no more stamps than one that ends at its last stamp. */
  lemma {:induction false} WindowIsLimited(times: seq<int>, to: int, window: nat, limit: nat)
    requires Limited(times, window, limit)
    ensures CountWithin(times, to - window, to) <= limit
  {
    if times != [] {
      var n := |times| - 1;
      if to - window < times[n] <= to {
        CountIsFresh(times, to, times[n], window);
      } else {
        WindowIsLimited(times[..n], to, window, limit);
      }
    }
  }

  lemma {:induction false} CountIsFresh(times: seq<int>, to: int, last: int, window: nat)
    requires last <= to
    ensures CountWithin(times, to - window, to) <= |Fresh(times, last, window)|
  {
    if times != [] {
      CountIsFresh(times[..|times| - 1], to, last, window);
    }
  }

  /**
   * However buckets are swept and made again, no interval of window length, open at one end, holds more of a
   * source's stamps than the limit; nor more failures of a pairing since its last reset.
   */
  lemma SlidingWindow(clock: int, steps: seq<Step>, k: string, to: int)
    requires ClockRuns(clock, steps)
    ensures CountWithin(GetOr(Run(clock, steps).sourceLog, k, []), to - SOURCE_WINDOW, to) <= SOURCE_LIMIT
    ensures CountWithin(GetOr(Run(clock, steps).failLog, k, []), to - FAIL_WINDOW, to) <= FAIL_LIMIT
  {
    var w := Run(clock, steps);
    GateSafety(clock, steps);
    AgreeLimits(w.gate.sources, w.sourceLog, w.clock, k, to, SOURCE_WINDOW, SOURCE_LIMIT);
    AgreeLimits(w.gate.failures, w.failLog, w.clock, k, to, FAIL_WINDOW, FAIL_LIMIT);
  }

  lemma AgreeLimits(m: Buckets, log: Buckets, clock: int, k: string, to: int, window: nat, limit: nat)
    requires Agree(m, log, clock, window, limit)
    ensures CountWithin(GetOr(log, k, []), to - window, to) <= limit
  {
    WindowIsLimited(GetOr(log, k, []), to, window, limit);
  }

  // ---- Exactly who gets in ----

  predicate Past(times: seq<int>, clock: int) {
    forall i | 0 <= i < |times| :: times[i] <= clock
  }

  ghost predicate AllPast(log: Buckets, clock: int) {
    forall k :: Past(GetOr(log, k, []), clock)
  }

  lemma PastLater(log: Buckets, clock: int, now: int)
    requires AllPast(log, clock) && clock <= now
    ensures AllPast(log, now)
  {
    forall k ensures Past(GetOr(log, k, []), now) {
      assert Past(GetOr(log, k, []), clock);
    }
  }

  lemma LoggedPast(log: Buckets, k: string, now: int, v: Verdict)
    requires AllPast(log, now)
    ensures AllPast(Logged(log, k, now, v), now)
  {
    forall j ensures Past(GetOr(Logged(log, k, now, v), j, []), now) {
      assert Past(GetOr(log, j, []), now);
    }
  }

  lemma {:induction false} LogsArePast(clock: int, steps: seq<Step>)
    requires ClockRuns(clock, steps)
    ensures var w := Run(clock, steps); AllPast(w.sourceLog, w.clock) && AllPast(w.failLog, w.clock)
  {
    if steps != [] {
      var w, step := Run(clock, steps[..|steps| - 1]), steps[|steps| - 1];
      LogsArePast(clock, steps[..|steps| - 1]);
      match step
      case AcquireStep(ip, now) =>
        PastLater(w.sourceLog, w.clock, now);
        PastLater(w.failLog, w.clock, now);
        LoggedPast(w.sourceLog, ip, now,
                   VerdictOf(SweepGate(w.gate, now).sources, ip, now, SOURCE_WINDOW, SOURCE_LIMIT));
      case FailStep(id, now) =>
        PastLater(w.sourceLog, w.clock, now);
        PastLater(w.failLog, w.clock, now);
        LoggedPast(w.failLog, id, now, VerdictOf(SweepGate(w.gate, now).failures, id, now, FAIL_WINDOW, FAIL_LIMIT));
      case ResetStep(id) =>
        forall k ensures Past(GetOr(w.failLog - {id}, k, []), w.clock) {
          assert Past(GetOr(w.failLog, k, []), w.clock);
        }
      case ReleaseStep =>
    }
  }

  lemma {:induction false} FreshIsCount(times: seq<int>, now: int, window: nat)
    requires Past(times, now)
    ensures |Fresh(times, now, window)| == CountWithin(times, now - window, now)
  {
    if times != [] { FreshIsCount(times[..|times| - 1], now, window); }
  }

  /** The keys with a stamp after `from` and not after `to`. */
  function Lively(log: Buckets, from: int, to: int): set<string> {
    set k | k in log && CountWithin(log[k], from, to) > 0
  }

  /** The swept buckets are those of the keys with a stamp in the window, each with as many as lie in it. */
  lemma SweptIsLively(m: Buckets, log: Buckets, clock: int, k: string, now: int, window: nat, limit: nat)
    requires Agree(m, log, clock, window, limit) && AllPast(log, clock) && clock <= now
    ensures var swept := Sweep(m, now, window);
            && |swept| == |Lively(log, now - window, now)| && (k in swept <==> k in Lively(log, now - window, now))
            && |Fresh(GetOr(swept, k, []), now, window)| == CountWithin(GetOr(log, k, []), now - window, now)
  {
    var swept := Sweep(m, now, window);
    SweepKeepsAgree(m, log, clock, now, window, limit);
    PastLater(log, clock, now);
    forall j
      ensures |GetOr(swept, j, [])| == CountWithin(GetOr(log, j, []), now - window, now)
      ensures j in swept <==> j in Lively(log, now - window, now)
    {
      FreshIsCount(GetOr(log, j, []), now, window);
    }
    assert swept.Keys == Lively(log, now - window, now);
    FreshTwice(GetOr(log, k, []), now, now, window);
  }

  /** How many claims are under way: those that got in, less those released, never below nought. */
  function Claims(clock: int, steps: seq<Step>): nat {
    if steps == [] then 0
    else
      var front, last := steps[..|steps| - 1], steps[|steps| - 1];
      var before := Claims(clock, front);
      match last
      case AcquireStep(ip, now) => if Admits(Run(clock, front).gate, ip, now) then before + 1 else before
      case ReleaseStep => if before > 0 then before - 1 else 0
      case _ => before
  }

  lemma {:induction false} ClaimsAreCounted(clock: int, steps: seq<Step>)
    ensures Run(clock, steps).gate.activeClaims == Claims(clock, steps)
  {
    if steps != [] { ClaimsAreCounted(clock, steps[..|steps| - 1]); }
  }

  /**
   * An attempt is stamped exactly when its source has fewer than ten stamps in the minute before it, and has one
   * there or fewer than 4096 sources do; and it gets in exactly when besides fewer than 16 claims are under way.
   */
  lemma AdmittedIff(clock: int, steps: seq<Step>, ip: string, now: int)
    requires ClockRuns(clock, steps) && Run(clock, steps).clock <= now
    ensures var w, next := Run(clock, steps), Next(Run(clock, steps), AcquireStep(ip, now));
            var before := GetOr(w.sourceLog, ip, []);
            var recent := CountWithin(before, now - 60_000, now);
            var takes := recent < 10 && (recent > 0 || |Lively(w.sourceLog, now - 60_000, now)| < 4096);
            && (Admits(w.gate, ip, now) <==> takes && Claims(clock, steps) < 16)
            && GetOr(next.sourceLog, ip, []) == (if takes then before + [now] else before)
            && forall other | other != ip :: GetOr(next.sourceLog, other, []) == GetOr(w.sourceLog, other, [])
  {
    var w := Run(clock, steps);
    GateSafety(clock, steps);
    LogsArePast(clock, steps);
    ClaimsAreCounted(clock, steps);
    SweptIsLively(w.gate.sources, w.sourceLog, w.clock, ip, now, SOURCE_WINDOW, SOURCE_LIMIT);
  }

  lemma LocksBy(g: Gate, id: string, now: int)
    ensures var swept := Sweep(g.failures, now, FAIL_WINDOW);
            Locks(g, id, now) <==>
            |Fresh(GetOr(swept, id, []), now, FAIL_WINDOW)| + 1 >= FAIL_LIMIT && (id in swept || |swept| < MAX_BUCKETS)
  {
  }

  lemma FailureIsLogged(w: World, id: string, now: int)
    ensures var swept, next := Sweep(w.gate.failures, now, FAIL_WINDOW), Next(w, FailStep(id, now));
            var takes := |Fresh(GetOr(swept, id, []), now, FAIL_WINDOW)| < FAIL_LIMIT
                         && (id in swept || |swept| < MAX_BUCKETS);
            && GetOr(next.failLog, id, []) == GetOr(w.failLog, id, []) + (if takes then [now] else [])
            && forall other | other != id :: GetOr(next.failLog, other, []) == GetOr(w.failLog, other, [])
  {
  }

  /**
   * A failure ends its session exactly when it is the fifth or later in five minutes since the last reset, and the
   * pairing failed there before or fewer than 4096 pairings did.
   */
  lemma LocksIff(clock: int, steps: seq<Step>, id: string, now: int)
    requires ClockRuns(clock, steps) && Run(clock, steps).clock <= now
    ensures var w, next := Run(clock, steps), Next(Run(clock, steps), FailStep(id, now));
            var before := GetOr(w.failLog, id, []);
            var recent := CountWithin(before, now - 300_000, now);
            var room := recent > 0 || |Lively(w.failLog, now - 300_000, now)| < 4096;
            && (Locks(w.gate, id, now) <==> recent + 1 >= 5 && room)
            && GetOr(next.failLog, id, []) == (if recent < 5 && room then before + [now] else before)
            && forall other | other != id :: GetOr(next.failLog, other, []) == GetOr(w.failLog, other, [])
  {
    var w := Run(clock, steps);
    GateSafety(clock, steps);
    LogsArePast(clock, steps);
    SweptIsLively(w.gate.failures, w.failLog, w.clock, id, now, FAIL_WINDOW, FAIL_LIMIT);
    LocksBy(w.gate, id, now);
    FailureIsLogged(w, id, now);
  }
}
