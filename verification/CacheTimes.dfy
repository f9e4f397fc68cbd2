/** The times the room and the member cache share, in nanoseconds, and the pruning of the times they record. */
module CacheTimes {
  import opened Sets

  const MINUTE: int := 60_000_000_000

  /** How long a fetch attempt keeps the next one away. */
  const COOLDOWN: int := 10 * MINUTE

  /** How long an entry is kept after it was last seen. */
  const TTL: int := 7 * 24 * 60 * MINUTE

  type Times = map<string, int>

  /** The times that are not too old yet. */
  function Young(times: Times, now: int): Times { map id | id in times && now - times[id] <= TTL :: times[id] }

  /** What pruning leaves: exactly the young times, unchanged. */
  ghost predicate KeepsYoung(before: Times, after: Times, now: int)
  {
    && (forall id :: id in after <==> id in before && now - before[id] <= TTL)
    && (forall id <- after :: after[id] == before[id])
  }

  method PruneTimes(times: Times, now: int) returns (kept: Times)
    ensures kept == Young(times, now) && KeepsYoung(times, kept, now)
  {
    kept := DeleteUnless(times, (at: int) => now - at <= TTL);
  }
}
