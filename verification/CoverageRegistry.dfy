/** The relay coverage registry updated in place under its mutex, each method tied to its function. */
module CoverageRegistry {
  import opened Options
  import opened CoverageLease

  class Coverage {
    var nextGen: nat
    var nextChannel: nat
    var entries: map<string, Entry>
    var leases: map<string, Lease>
    var starting: map<string, Channel>
    var closed: seq<Channel>
    ghost var log: seq<Happening>

    ghost function Model(): Registry
      reads this
    {
      Registry(nextGen, nextChannel, entries, leases, starting, closed, log)
    }

    constructor ()
      ensures Model() == EMPTY
    {
      nextGen, nextChannel, entries, leases, starting, closed, log := 0, 0, map[], map[], map[], [], [];
    }

    method MakeChannel() returns (c: Channel)
      modifies this`nextChannel
      ensures c == old(nextChannel) && nextChannel == c + 1
    {
      c := nextChannel;
      nextChannel := nextChannel + 1;
    }

    /** Closing is recorded; a second close of one channel would panic. */
    method Close(c: Channel)
      requires c !in closed
      modifies this`closed
      ensures closed == old(closed) + [c]
    {
      closed := closed + [c];
    }

    method MarkRelayStarting(s: string) returns (signal: Channel)
      modifies this
      ensures Model() == Next(old(Model()), MarkStart(s)) && Lookup(starting, s) == Some(signal)
    {
      if s in starting {
        return starting[s];
      }
      signal := MakeChannel();
      starting := starting[s := signal];
    }

    method FinishStarting(s: string)
      requires ChannelsOk(Model())
      modifies this
      ensures Model() == Next(old(Model()), FinishStart(s))
    {
      if s in starting {
        Close(starting[s]);
        starting := starting - {s};
      }
    }

    method Register(s: string, sourceIdentity: string, admissionCut: int) returns (generation: nat)
      requires ChannelsOk(Model())
      modifies this
      ensures Model() == Next(old(Model()), Reg(s, sourceIdentity, admissionCut)) && generation == nextGen
    {
      nextGen := nextGen + 1;
      generation := nextGen;
      if s in entries {
        Close(entries[s].commands);
      }
      var commands := MakeChannel();
      entries := entries[s := Entry(generation, sourceIdentity, admissionCut, commands)];
      leases := leases - {s};
      log := log + [Registered(s, generation)];
    }

    method Unregister(s: string, generation: nat)
      requires ChannelsOk(Model())
      modifies this
      ensures Model() == Next(old(Model()), Unreg(s, generation))
    {
      if s !in entries || entries[s].generation != generation {
        return;
      }
      Close(entries[s].commands);
      entries := entries - {s};
      leases := leases - {s};
      log := log + [Dropped(s)];
    }

    /** The queue of the loop registered under that generation; a superseded loop gets none. */
    method Commands(s: string, generation: nat) returns (commands: Option<Channel>)
      ensures commands.Some? <==> Current(Model(), s, generation)
      ensures commands.Some? ==> commands.value == entries[s].commands
    {
      if s !in entries || entries[s].generation != generation {
        return None;
      }
      commands := Some(entries[s].commands);
    }

    method RequestCoverage(s: string, sourceIdentity: string) returns (admission: Admission)
      ensures admission == AdmitRequest(Model(), s, sourceIdentity)
    {
      if s !in entries {
        if s in starting {
          return AwaitStart(starting[s]);
        }
        return NoRelay;
      }
      if entries[s].sourceIdentity != sourceIdentity {
        return SourceMismatch;
      }
      admission := Send(entries[s].commands, entries[s].generation);
    }

    method IssueLease(s: string, lease: Lease)
      modifies this
      ensures Model() == Next(old(Model()), Issue(s, lease))
    {
      if s !in entries || entries[s].generation != lease.generation {
        return;
      }
      leases := leases[s := lease];
      log := log + [Issued(s, lease)];
    }

    /** Runs the commit only under a valid lease, and spends the lease only when the commit succeeds. */
    method ValidateAndCommit(s: string, sourceIdentity: string, sourceCut: int, ok: bool)
      returns (outcome: CommitOutcome)
      modifies this
      ensures Model() == Next(old(Model()), Commit(s, sourceIdentity, sourceCut, ok))
      ensures outcome == CommitOutcomeOf(old(Model()), s, sourceIdentity, sourceCut, ok)
    {
      if s !in entries {
        return LeaseInvalid;
      }
      if s !in leases || !ValidLease(leases[s], entries[s].generation, sourceIdentity, sourceCut) {
        return LeaseInvalid;
      }
      if !ok {
        return CommitFailed;
      }
      leases := leases - {s};
      log := log + [Committed(s, entries[s].generation, sourceIdentity, sourceCut)];
      outcome := CommitDone;
    }

    method InvalidateLease(s: string)
      modifies this
      ensures Model() == Next(old(Model()), Invalidate(s))
    {
      leases := leases - {s};
      log := log + [Dropped(s)];
    }
  }
}
