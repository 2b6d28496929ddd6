/**
 * Coverage leases: a relay loop registers under a new generation, issues a lease once it is bound to a live
 * process, and a cold transaction commits under that lease. The log records what happened, for the proofs.
 */
module CoverageLease {
  import opened Options

  /** A command queue or start signal, by identity. */
  type Channel = nat

  datatype Entry = Entry(generation: nat, sourceIdentity: string, admissionCut: int, commands: Channel)

  datatype Lease = Lease(generation: nat, sourceIdentity: string, sourceCut: int, pid: int)

  datatype Happening =
    | Registered(sessionId: string, generation: nat)
    | Dropped(sessionId: string)
    | Issued(sessionId: string, lease: Lease)
    | Committed(sessionId: string, generation: nat, sourceIdentity: string, sourceCut: int)

  datatype Registry = Registry(
    nextGen: nat,
    nextChannel: nat,
    entries: map<string, Entry>,
    leases: map<string, Lease>,
    starting: map<string, Channel>,
    closed: seq<Channel>,
    log: seq<Happening>)

  const EMPTY := Registry(0, 0, map[], map[], map[], [], [])

  predicate ValidLease(lease: Lease, generation: nat, sourceIdentity: string, sourceCut: int) {
    lease.generation == generation && lease.sourceIdentity == sourceIdentity && lease.sourceCut == sourceCut
  }

  function MarkStarting(r: Registry, s: string): Registry {
    if s in r.starting then r else r.(starting := r.starting[s := r.nextChannel], nextChannel := r.nextChannel + 1)
  }

  function FinishStarting(r: Registry, s: string): Registry {
    if s in r.starting then r.(closed := r.closed + [r.starting[s]], starting := r.starting - {s}) else r
  }

  function Register(r: Registry, s: string, sourceIdentity: string, admissionCut: int): Registry {
    var generation := r.nextGen + 1;
    Registry(generation, r.nextChannel + 1,
             r.entries[s := Entry(generation, sourceIdentity, admissionCut, r.nextChannel)],
             r.leases - {s}, r.starting,
             if s in r.entries then r.closed + [r.entries[s].commands] else r.closed,
             r.log + [Registered(s, generation)])
  }

  predicate Current(r: Registry, s: string, generation: nat) {
    s in r.entries && r.entries[s].generation == generation
  }

  function Unregister(r: Registry, s: string, generation: nat): Registry {
    if Current(r, s, generation) then
      r.(closed := r.closed + [r.entries[s].commands], entries := r.entries - {s}, leases := r.leases - {s},
         log := r.log + [Dropped(s)])
    else r
  }

  function IssueLease(r: Registry, s: string, lease: Lease): Registry {
    if Current(r, s, lease.generation) then r.(leases := r.leases[s := lease], log := r.log + [Issued(s, lease)]) else r
  }

  datatype CommitOutcome = LeaseInvalid | CommitFailed | CommitDone

  /** The outcome of a validated commit whose kernel call succeeds exactly when `ok`. */
  function CommitOutcomeOf(r: Registry, s: string, sourceIdentity: string, sourceCut: int, ok: bool): CommitOutcome {
    if s !in r.entries || s !in r.leases
      || !ValidLease(r.leases[s], r.entries[s].generation, sourceIdentity, sourceCut) then
      LeaseInvalid
    else if !ok then CommitFailed
    else CommitDone
  }

  function ValidateAndCommit(r: Registry, s: string, sourceIdentity: string, sourceCut: int, ok: bool): Registry {
    if CommitOutcomeOf(r, s, sourceIdentity, sourceCut, ok).CommitDone? then
      r.(leases := r.leases - {s},
         log := r.log + [Committed(s, r.entries[s].generation, sourceIdentity, sourceCut)])
    else r
  }

  function InvalidateLease(r: Registry, s: string): Registry {
    r.(leases := r.leases - {s}, log := r.log + [Dropped(s)])
  }

  datatype Admission = NoRelay | AwaitStart(signal: Channel) | SourceMismatch | Send(commands: Channel, generation: nat)

  /** What a cold transaction's coverage request does under the lock: fail, wait for a start, or send. */
  function AdmitRequest(r: Registry, s: string, sourceIdentity: string): Admission {
    if s !in r.entries then (if s in r.starting then AwaitStart(r.starting[s]) else NoRelay)
    else if r.entries[s].sourceIdentity != sourceIdentity then SourceMismatch
    else Send(r.entries[s].commands, r.entries[s].generation)
  }

  datatype Step =
    | MarkStart(s: string)
    | FinishStart(s: string)
    | Reg(s: string, sourceIdentity: string, admissionCut: int)
    | Unreg(s: string, generation: nat)
    | Issue(s: string, lease: Lease)
    | Commit(s: string, sourceIdentity: string, sourceCut: int, ok: bool)
    | Invalidate(s: string)

  function Next(r: Registry, step: Step): Registry {
    match step
    case MarkStart(s) => MarkStarting(r, s)
    case FinishStart(s) => FinishStarting(r, s)
    case Reg(s, identity, cut) => Register(r, s, identity, cut)
    case Unreg(s, generation) => Unregister(r, s, generation)
    case Issue(s, lease) => IssueLease(r, s, lease)
    case Commit(s, identity, cut, ok) => ValidateAndCommit(r, s, identity, cut, ok)
    case Invalidate(s) => InvalidateLease(r, s)
  }

  function Run(steps: seq<Step>): Registry {
    if steps == [] then EMPTY else Next(Run(steps[..|steps| - 1]), steps[|steps| - 1])
  }

  // ---- What the log says ----

  /** The lease standing for a session after a history of happenings. */
  function Standing(log: seq<Happening>, s: string): Option<Lease> {
    if log == [] then None
    else
      var last := log[|log| - 1];
      if last.sessionId != s then Standing(log[..|log| - 1], s)
      else if last.Issued? then Some(last.lease)
      else None
  }

  /** Happening k is an issue for the session, and nothing has touched its lease from there up to position j. */
  predicate IssuedAndStands(log: seq<Happening>, s: string, k: nat, j: nat) {
    && k < j <= |log| && log[k].Issued? && log[k].sessionId == s
    && forall m | k < m < j :: log[m].sessionId != s
  }

  /** A standing lease was issued by a happening that nothing about the session followed. */
  lemma {:induction false} StandingWasIssued(log: seq<Happening>, s: string) returns (k: nat)
    requires Standing(log, s).Some?
    ensures IssuedAndStands(log, s, k, |log|) && Some(log[k].lease) == Standing(log, s)
  {
    if log[|log| - 1].sessionId == s {
      k := |log| - 1;
    } else {
      k := StandingWasIssued(log[..|log| - 1], s);
    }
  }

  /** The commit at position j stood under a lease of its own, with its generation, source and cut. */
  ghost predicate CommitCovered(log: seq<Happening>, j: nat)
    requires j < |log| && log[j].Committed?
  {
    exists k: nat :: IssuedAndStands(log, log[j].sessionId, k, j)
             && ValidLease(log[k].lease, log[j].generation, log[j].sourceIdentity, log[j].sourceCut)
  }

  ghost predicate LogOk(log: seq<Happening>) {
    forall j | 0 <= j < |log| && log[j].Committed? :: CommitCovered(log, j)
  }

  /** Registrations carry rising generations up to the counter. */
  ghost predicate GenerationsRise(log: seq<Happening>, nextGen: nat) {
    && (forall i | 0 <= i < |log| && log[i].Registered? :: log[i].generation <= nextGen)
    && (forall i, j | 0 <= i < j < |log| && log[i].Registered? && log[j].Registered? ::
         log[i].generation < log[j].generation)
  }

  ghost predicate LogAgrees(leases: map<string, Lease>, log: seq<Happening>) {
    forall s :: Lookup(leases, s) == Standing(log, s)
  }

  /** Sessions are registered under generations of their own, and stored leases carry the current ones. */
  ghost predicate LeasesCurrent(entries: map<string, Entry>, leases: map<string, Lease>, nextGen: nat) {
    && (forall s | s in leases :: s in entries && entries[s].generation == leases[s].generation)
    && (forall s | s in entries :: 1 <= entries[s].generation <= nextGen)
    && (forall s, t | s in entries && t in entries && entries[s].generation == entries[t].generation :: s == t)
  }

  ghost predicate LeasesOk(r: Registry) {
    LogAgrees(r.leases, r.log) && LeasesCurrent(r.entries, r.leases, r.nextGen)
  }

  ghost predicate ClosedOnce(closed: seq<Channel>, bound: Channel) {
    && (forall i, j | 0 <= i < j < |closed| :: closed[i] != closed[j])
    && (forall i | 0 <= i < |closed| :: closed[i] < bound)
  }

  ghost predicate OpenBelow(r: Registry) {
    && (forall s | s in r.entries :: r.entries[s].commands < r.nextChannel && r.entries[s].commands !in r.closed)
    && (forall s | s in r.starting :: r.starting[s] < r.nextChannel && r.starting[s] !in r.closed)
  }

  ghost predicate OpenApart(entries: map<string, Entry>, starting: map<string, Channel>) {
    && (forall s, t | s in entries && t in entries && entries[s].commands == entries[t].commands :: s == t)
    && (forall s, t | s in starting && t in starting && starting[s] == starting[t] :: s == t)
    && (forall s, t | s in entries && t in starting :: entries[s].commands != starting[t])
  }

  /** No channel was closed twice, and no open one is closed or shared. */
  ghost predicate ChannelsOk(r: Registry) {
    ClosedOnce(r.closed, r.nextChannel) && OpenBelow(r) && OpenApart(r.entries, r.starting)
  }

  /** A channel nobody holds can be opened as a queue or a signal; closing one keeps the others apart. */
  lemma OpeningKeepsApart(entries: map<string, Entry>, starting: map<string, Channel>, s: string, e: Entry)
    requires OpenApart(entries, starting)
    requires (forall t | t in entries :: entries[t].commands != e.commands)
             && (forall t | t in starting :: starting[t] != e.commands)
    ensures OpenApart(entries[s := e], starting) && OpenApart(entries, starting[s := e.commands])
  {
  }

  lemma ClosingKeepsApart(entries: map<string, Entry>, starting: map<string, Channel>, s: string)
    requires OpenApart(entries, starting)
    ensures OpenApart(entries - {s}, starting) && OpenApart(entries, starting - {s})
  {
  }

  lemma StepKeepsClosedOnce(r: Registry, step: Step)
    requires ClosedOnce(r.closed, r.nextChannel) && OpenBelow(r)
    ensures ClosedOnce(Next(r, step).closed, Next(r, step).nextChannel)
  {
  }

  lemma StepKeepsOpenApart(r: Registry, step: Step)
    requires OpenBelow(r) && OpenApart(r.entries, r.starting)
    ensures OpenApart(Next(r, step).entries, Next(r, step).starting)
  {
    ClosingKeepsApart(r.entries, r.starting, step.s);
    match step
    case MarkStart(s) => OpeningKeepsApart(r.entries, r.starting, s, Entry(0, "", 0, r.nextChannel));
    case Reg(s, identity, cut) =>
      OpeningKeepsApart(r.entries, r.starting, s, Entry(r.nextGen + 1, identity, cut, r.nextChannel));
    case _ =>
  }

  lemma StepKeepsOpenBelow(r: Registry, step: Step)
    requires ChannelsOk(r)
    ensures OpenBelow(Next(r, step))
  {
    var next := Next(r, step);
    assert forall c :: c in next.closed ==> c in r.closed || c == next.closed[|next.closed| - 1];
  }

  lemma StepKeepsChannels(r: Registry, step: Step)
    requires ChannelsOk(r)
    ensures ChannelsOk(Next(r, step))
  {
    StepKeepsClosedOnce(r, step);
    StepKeepsOpenApart(r, step);
    StepKeepsOpenBelow(r, step);
  }

  lemma StandingAppend(log: seq<Happening>, h: Happening)
    ensures forall s ::
      Standing(log + [h], s) ==
      if h.sessionId != s then Standing(log, s) else if h.Issued? then Some(h.lease) else None
  {
    assert (log + [h])[..|log|] == log;
  }

  lemma RegisterKeepsCurrent(entries: map<string, Entry>, leases: map<string, Lease>, nextGen: nat, s: string, e: Entry)
    requires LeasesCurrent(entries, leases, nextGen) && e.generation == nextGen + 1
    ensures LeasesCurrent(entries[s := e], leases - {s}, nextGen + 1)
  {
  }

  lemma StepKeepsCurrent(r: Registry, step: Step)
    requires LeasesCurrent(r.entries, r.leases, r.nextGen)
    ensures LeasesCurrent(Next(r, step).entries, Next(r, step).leases, Next(r, step).nextGen)
  {
    if step.Reg? {
      RegisterKeepsCurrent(r.entries, r.leases, r.nextGen, step.s, Next(r, step).entries[step.s]);
    }
  }

  /** A happening moves a session's standing lease exactly as it moves the stored one. */
  lemma HappeningKeepsAgreement(leases: map<string, Lease>, log: seq<Happening>, h: Happening)
    requires LogAgrees(leases, log)
    ensures LogAgrees(if h.Issued? then leases[h.sessionId := h.lease] else leases - {h.sessionId}, log + [h])
  {
    StandingAppend(log, h);
  }

  lemma StepKeepsAgreement(r: Registry, step: Step)
    requires LogAgrees(r.leases, r.log)
    ensures LogAgrees(Next(r, step).leases, Next(r, step).log)
  {
    var next := Next(r, step);
    if next.log != r.log {
      HappeningKeepsAgreement(r.leases, r.log, next.log[|r.log|]);
    }
  }

  lemma StepKeepsLeases(r: Registry, step: Step)
    requires LeasesOk(r)
    ensures LeasesOk(Next(r, step))
  {
    StepKeepsCurrent(r, step);
    StepKeepsAgreement(r, step);
  }

  lemma StepKeepsGenerations(r: Registry, step: Step)
    requires GenerationsRise(r.log, r.nextGen)
    ensures GenerationsRise(Next(r, step).log, Next(r, step).nextGen)
  {
  }

  lemma CoverageAppend(log: seq<Happening>, h: Happening)
    requires LogOk(log)
    requires h.Committed? ==> Standing(log, h.sessionId).Some?
    requires h.Committed? ==> ValidLease(Standing(log, h.sessionId).value, h.generation, h.sourceIdentity, h.sourceCut)
    ensures LogOk(log + [h])
  {
    var all := log + [h];
    forall j | 0 <= j < |all| && all[j].Committed? ensures CommitCovered(all, j) {
      if j == |log| {
        var k := StandingWasIssued(log, h.sessionId);
        assert IssuedAndStands(all, h.sessionId, k, j);
      } else {
        assert CommitCovered(log, j);
        var k: nat :| IssuedAndStands(log, log[j].sessionId, k, j)
              && ValidLease(log[k].lease, log[j].generation, log[j].sourceIdentity, log[j].sourceCut);
        assert IssuedAndStands(all, all[j].sessionId, k, j);
      }
    }
  }

  lemma StepKeepsCoverage(r: Registry, step: Step)
    requires LogOk(r.log) && LeasesOk(r)
    ensures LogOk(Next(r, step).log)
  {
    var next := Next(r, step);
    if next.log != r.log {
      assert next.log == r.log + [next.log[|r.log|]];
      assert step.Commit? ==> Lookup(r.leases, step.s) == Standing(r.log, step.s);
      CoverageAppend(r.log, next.log[|r.log|]);
    }
  }

  /** In every reachable state leases are current, commits covered, generations rising and no channel closed twice. */
  lemma {:induction false} LeaseSafety(steps: seq<Step>)
    ensures LeasesOk(Run(steps)) && ChannelsOk(Run(steps)) && LogOk(Run(steps).log)
    ensures GenerationsRise(Run(steps).log, Run(steps).nextGen)
  {
    if steps != [] {
      var before, step := Run(steps[..|steps| - 1]), steps[|steps| - 1];
      LeaseSafety(steps[..|steps| - 1]);
      StepKeepsLeases(before, step);
      StepKeepsChannels(before, step);
      StepKeepsGenerations(before, step);
      StepKeepsCoverage(before, step);
    }
  }

  /**
   * Between two commits for a session a new lease was issued, and nothing of the session came between it and
   * the second.
   */
  lemma CommitsAreSeparatedByIssue(steps: seq<Step>, i: nat, j: nat) returns (k: nat)
    requires var log := Run(steps).log;
             i < j < |log| && log[i].Committed? && log[j].Committed? && log[i].sessionId == log[j].sessionId
    ensures var log := Run(steps).log;
            && i < k < j && log[k].Issued? && log[k].sessionId == log[j].sessionId
            && ValidLease(log[k].lease, log[j].generation, log[j].sourceIdentity, log[j].sourceCut)
            && forall m | k < m < j :: log[m].sessionId != log[j].sessionId
  {
    LeaseSafety(steps);
    var log := Run(steps).log;
    assert CommitCovered(log, j);
    k :| IssuedAndStands(log, log[j].sessionId, k, j)
      && ValidLease(log[k].lease, log[j].generation, log[j].sourceIdentity, log[j].sourceCut);
  }

  /** No lease outlives a re-registration: until the new loop issues one, no commit for the session succeeds. */
  lemma {:induction false} NoLeaseAfterRegister(steps: seq<Step>, more: seq<Step>, s: string)
    requires steps != [] && steps[|steps| - 1].Reg? && steps[|steps| - 1].s == s
    requires forall i | 0 <= i < |more| :: !(more[i].Issue? && more[i].s == s)
    ensures s !in Run(steps + more).leases
    ensures forall identity, cut, ok :: CommitOutcomeOf(Run(steps + more), s, identity, cut, ok).LeaseInvalid?
  {
    if more == [] {
      assert steps + more == steps;
    } else {
      NoLeaseAfterRegister(steps, more[..|more| - 1], s);
      assert (steps + more)[..|steps + more| - 1] == steps + more[..|more| - 1];
    }
  }

  // ---- Every session follows its own calls ----

  function Registrations(steps: seq<Step>): nat {
    if steps == [] then 0
    else Registrations(steps[..|steps| - 1]) + if steps[|steps| - 1].Reg? then 1 else 0
  }

  /** A loop as it registered: as the n-th of all, with the source it reads and the cut it was admitted at. */
  datatype Loop = Loop(number: nat, sourceIdentity: string, admissionCut: int)

  /** What one session's calls come to: its loop, the lease it stands under, and whether a start is announced. */
  datatype Told = Told(loop: Option<Loop>, lease: Option<Lease>, starting: bool)

  function Tell(told: Told, step: Step, number: nat): Told {
    match step
    case MarkStart(_) => told.(starting := true)
    case FinishStart(_) => told.(starting := false)
    case Reg(_, identity, cut) => Told(Some(Loop(number, identity, cut)), None, told.starting)
    case Unreg(_, generation) =>
      if told.loop.Some? && told.loop.value.number == generation then Told(None, None, told.starting) else told
    case Issue(_, lease) =>
      if told.loop.Some? && told.loop.value.number == lease.generation then told.(lease := Some(lease)) else told
    case Commit(_, identity, cut, ok) =>
      if ok && told.lease.Some? && told.lease.value.sourceIdentity == identity && told.lease.value.sourceCut == cut then
        told.(lease := None)
      else told
    case Invalidate(_) => told.(lease := None)
  }

  function TellAll(steps: seq<Step>, s: string): Told {
    if steps == [] then Told(None, None, false)
    else
      var front, last := steps[..|steps| - 1], steps[|steps| - 1];
      if last.s == s then Tell(TellAll(front, s), last, Registrations(steps)) else TellAll(front, s)
  }

  ghost predicate Follows(r: Registry, s: string, told: Told) {
    && (if s in r.entries
        then told.loop == Some(Loop(r.entries[s].generation, r.entries[s].sourceIdentity, r.entries[s].admissionCut))
        else told.loop.None?)
    && Lookup(r.leases, s) == told.lease && (s in r.starting <==> told.starting)
  }

  lemma StepFollows(r: Registry, step: Step, s: string, told: Told)
    requires LeasesCurrent(r.entries, r.leases, r.nextGen) && Follows(r, s, told)
    ensures Follows(Next(r, step), s,
                    if step.s == s then Tell(told, step, r.nextGen + if step.Reg? then 1 else 0) else told)
    ensures Next(r, step).nextGen == r.nextGen + if step.Reg? then 1 else 0
  {
  }

  /**
   * The registry is one for all sessions, but of each session it holds what that session's own calls come to: the
   * loop last registered and not since unregistered under its own number, the lease last issued under that number
   * and neither spent nor dropped since, and an announced start.
   */
  lemma {:induction false} SessionsFollowTheirCalls(steps: seq<Step>, s: string)
    ensures Follows(Run(steps), s, TellAll(steps, s)) && Run(steps).nextGen == Registrations(steps)
  {
    if steps != [] {
      var front, last := steps[..|steps| - 1], steps[|steps| - 1];
      SessionsFollowTheirCalls(front, s);
      LeaseSafety(front);
      StepFollows(Run(front), last, s, TellAll(front, s));
    }
  }

  /**
   * So a commit goes through exactly when the kernel takes it and a lease stands for its source and cut; and a
   * coverage request is sent to the loop of its source, refused by one of another, and waits only for a start.
   */
  lemma CommitsAndRequestsIff(steps: seq<Step>, s: string, identity: string, cut: int, ok: bool)
    ensures var r, told := Run(steps), TellAll(steps, s);
            var covered := told.lease.Some? && told.lease.value.sourceIdentity == identity
                           && told.lease.value.sourceCut == cut;
            && CommitOutcomeOf(r, s, identity, cut, ok) ==
               (if !covered then LeaseInvalid else if ok then CommitDone else CommitFailed)
            && match AdmitRequest(r, s, identity)
               case NoRelay => told.loop.None? && !told.starting
               case AwaitStart(signal) => told.loop.None? && told.starting && signal !in r.closed
               case SourceMismatch => told.loop.Some? && told.loop.value.sourceIdentity != identity
               case Send(commands, generation) =>
                 && told.loop.Some? && told.loop.value.sourceIdentity == identity
                 && generation == told.loop.value.number && commands !in r.closed
  {
    SessionsFollowTheirCalls(steps, s);
    LeaseSafety(steps);
  }

  // ---- No channel is lost ----

  predicate Holds(r: Registry, c: Channel) {
    || (exists s :: s in r.entries && r.entries[s].commands == c)
    || (exists s :: s in r.starting && r.starting[s] == c)
  }

  lemma StepLosesNone(r: Registry, step: Step, c: Channel)
    requires c < Next(r, step).nextChannel
    requires c < r.nextChannel ==> c in r.closed || Holds(r, c)
    ensures c in Next(r, step).closed || Holds(Next(r, step), c)
  {
    var next := Next(r, step);
    assert r.closed <= next.closed;
    if c < r.nextChannel && Holds(r, c) {
      if s :| s in r.entries && r.entries[s].commands == c {
        assert (s in next.entries && next.entries[s].commands == c) || next.closed == r.closed + [c];
      } else {
        var s :| s in r.starting && r.starting[s] == c;
        assert (s in next.starting && next.starting[s] == c) || next.closed == r.closed + [c];
      }
    } else if c >= r.nextChannel {
      assert c == r.nextChannel;
      if step.Reg? {
        assert next.entries[step.s].commands == c;
      } else {
        assert next.starting[step.s] == c;
      }
    }
  }

  /** Every queue and signal ever made is held by its session or was closed: whoever reads one is told of its end. */
  lemma {:induction false} NoChannelIsLost(steps: seq<Step>, c: Channel)
    requires c < Run(steps).nextChannel
    ensures c in Run(steps).closed || Holds(Run(steps), c)
  {
    var front, last := steps[..|steps| - 1], steps[|steps| - 1];
    if c < Run(front).nextChannel { NoChannelIsLost(front, c); }
    StepLosesNone(Run(front), last, c);
  }
}
