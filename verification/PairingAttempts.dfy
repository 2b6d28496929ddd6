/** The pairing gate updated in place, each method tied to its function. */
module PairingAttempts {
  import opened Options
  import opened PairingGate

  /** Filters the bucket to its window and takes a stamp if there is room. */
  method Allow(stamps: seq<int>, now: int, window: nat, limit: nat) returns (allowed: bool, counts: seq<int>)
    ensures allowed <==> |Fresh(stamps, now, window)| < limit
    ensures counts == if allowed then Fresh(stamps, now, window) + [now] else Fresh(stamps, now, window)
  {
    counts := FreshOf(stamps, now, window);
    allowed := |counts| < limit;
    if allowed {
      counts := counts + [now];
    }
  }

  method FreshOf(stamps: seq<int>, now: int, window: nat) returns (counts: seq<int>)
    ensures counts == Fresh(stamps, now, window)
  {
    var cutoff := now - window;
    counts := [];
    for i := 0 to |stamps|
      invariant counts == Fresh(stamps[..i], now, window)
    {
      assert stamps[..i + 1][..i] == stamps[..i];
      if stamps[i] > cutoff {
        counts := counts + [stamps[i]];
      }
    }
    assert stamps[..|stamps|] == stamps;
  }

  /** Drops the buckets with nothing left in their window and trims the others. */
  method SweepBuckets(buckets: Buckets, now: int, window: nat) returns (swept: Buckets)
    ensures swept == Sweep(buckets, now, window)
  {
    swept := buckets;
    var rest := buckets.Keys;
    while rest != {}
      invariant rest <= buckets.Keys
      invariant forall k :: k in swept <==> k in buckets && (k in rest || Fresh(buckets[k], now, window) != [])
      invariant forall k | k in swept :: swept[k] == if k in rest then buckets[k] else Fresh(buckets[k], now, window)
      decreases rest
    {
      var k :| k in rest;
      var counts := FreshOf(buckets[k], now, window);
      if |counts| == 0 {
        swept := swept - {k};
      } else {
        swept := swept[k := counts];
      }
      rest := rest - {k};
    }
  }

  class AttemptGate {
    var sourceBuckets: Buckets
    var pairFails: Buckets
    var activeClaims: int

    ghost function Model(): Gate
      reads this
    {
      Gate(sourceBuckets, pairFails, activeClaims)
    }

    constructor ()
      ensures Model() == Start(0).gate
    {
      sourceBuckets, pairFails, activeClaims := map[], map[], 0;
    }

    method SweepStale(now: int)
      modifies this`sourceBuckets, this`pairFails
      ensures Model() == SweepGate(old(Model()), now)
    {
      sourceBuckets := SweepBuckets(sourceBuckets, now, SOURCE_WINDOW);
      pairFails := SweepBuckets(pairFails, now, FAIL_WINDOW);
    }

    method Acquire(ip: string, now: int) returns (admitted: bool)
      modifies this
      ensures Model() == PairingGate.Acquire(old(Model()), ip, now)
      ensures admitted <==> Admits(old(Model()), ip, now)
    {
      SweepStale(now);
      if ip !in sourceBuckets && |sourceBuckets| >= MAX_BUCKETS {
        return false;
      }
      var allowed, counts := Allow(GetOr(sourceBuckets, ip, []), now, SOURCE_WINDOW, SOURCE_LIMIT);
      sourceBuckets := sourceBuckets[ip := counts];
      if !allowed {
        return false;
      }
      if activeClaims >= MAX_CLAIMS {
        return false;
      }
      activeClaims := activeClaims + 1;
      admitted := true;
    }

    method Release()
      modifies this`activeClaims
      ensures Model() == PairingGate.Release(old(Model()))
    {
      activeClaims := activeClaims - 1;
      if activeClaims < 0 {
        activeClaims := 0;
      }
    }

    method RecordPairingFailure(pairingId: string, now: int) returns (locked: bool)
      modifies this
      ensures Model() == RecordFailure(old(Model()), pairingId, now)
      ensures locked <==> Locks(old(Model()), pairingId, now)
    {
      SweepStale(now);
      if pairingId !in pairFails && |pairFails| >= MAX_BUCKETS {
        return false;
      }
      var _, counts := Allow(GetOr(pairFails, pairingId, []), now, FAIL_WINDOW, FAIL_LIMIT);
      pairFails := pairFails[pairingId := counts];
      locked := |counts| >= FAIL_LIMIT;
    }

    method ResetPairingFailures(pairingId: string)
      modifies this`pairFails
      ensures Model() == ResetFailures(old(Model()), pairingId)
    {
      pairFails := pairFails - {pairingId};
    }
  }
}
