/** The checkpoint coalescer's critical sections on its fields, each tied to its step. */
module CheckpointCoalescer {
  import opened CheckpointCoalescing
  import opened Options

  class Coalescer {
    var intents: map<Key, int>
    var inflight: bool
    var timer: bool
    // Callbacks scheduled, sweeps under way and the history, which the program leaves to the runtime.
    var timers: nat
    var sweeps: seq<seq<Intent>>
    ghost var staged: map<Key, int>
    ghost var attempted: seq<Intent>

    ghost function Model(): State
      reads this
    {
      State(intents, inflight, timer, timers, sweeps, staged, attempted)
    }

    constructor ()
      ensures Model() == EMPTY
    {
      intents, inflight, timer, timers, sweeps, staged, attempted := map[], false, false, 0, [], map[], [];
    }

    method Arm()
      modifies this`timer, this`timers
      ensures timer && timers == old(timers) + 1
    {
      timer, timers := true, timers + 1;
    }

    method StageTurn(backendId: string, sessionId: string, turn: int)
      modifies this
      ensures Model() == Next(old(Model()), Stage(Key(backendId, sessionId), turn))
    {
      if backendId == "" || sessionId == "" || turn <= 0 {
        return;
      }
      var key := Key(backendId, sessionId);
      intents := intents[key := turn];
      staged := staged[key := turn];
      if !inflight && !timer {
        Arm();
      }
    }

    /** The timer's callback up to where it leaves the lock, with the order the pending intents come in. */
    method BeginDrain() returns (order: seq<Key>)
      requires timers > 0
      modifies this
      ensures Enabled(old(Model()), Fire(order)) && Model() == Next(old(Model()), Fire(order))
    {
      timers := timers - 1;
      timer := false;
      order := [];
      var pending: seq<Intent> := [];
      var rest := intents.Keys;
      while rest != {}
        invariant rest <= intents.Keys
        invariant forall i, j | 0 <= i < j < |order| :: order[i] != order[j]
        invariant forall i | 0 <= i < |order| :: order[i] in intents && order[i] !in rest
        invariant forall k | k in intents :: k in order || k in rest
        invariant pending == Snapshot(order, intents)
        decreases rest
      {
        var key :| key in rest;
        rest := rest - {key};
        order := order + [key];
        pending := pending + [Intent(key, intents[key])];
      }
      if inflight {
        return;
      }
      intents := map[];
      inflight := true;
      sweeps := sweeps + [pending];
    }

    method CaptureOne(sweep: nat) returns (intent: Intent)
      requires sweep < |sweeps| && sweeps[sweep] != []
      modifies this
      ensures Model() == Next(old(Model()), Capture(sweep)) && intent == old(sweeps)[sweep][0]
    {
      intent := sweeps[sweep][0];
      sweeps := sweeps[sweep := sweeps[sweep][1..]];
      attempted := attempted + [intent];
    }

    method FinishDrain(sweep: nat)
      requires sweep < |sweeps| && sweeps[sweep] == []
      modifies this
      ensures Model() == Next(old(Model()), EndSweep(sweep))
    {
      sweeps := sweeps[..sweep] + sweeps[sweep + 1..];
      inflight := false;
      if |intents| > 0 {
        Arm();
      }
    }
  }
}
