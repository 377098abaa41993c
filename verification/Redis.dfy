/** The per-user tunnel counters in Redis: `GetTunnelCount`, `IncrementTunnelCount` and
    `DecrementTunnelCount`.  A missing key counts as zero; the Decr of a decrement and the Set that may
    follow it are one step. */
module Redis {

  type User = string

  function At(counter: map<User, nat>, u: User): nat {
    if u in counter then counter[u] else 0
  }

  function Floor(n: int): nat {
    if n < 0 then 0 else n
  }

  function Incr(counter: map<User, nat>, u: User): map<User, nat> {
    counter[u := At(counter, u) + 1]
  }

  function Decr(counter: map<User, nat>, u: User): map<User, nat> {
    counter[u := Floor(At(counter, u) - 1)]
  }

  /** The client; its keys are the counters. */
  class RedisClient {
    var keys: map<User, nat>

    constructor ()
      ensures keys == map[]
    {
      keys := map[];
    }

    method GetTunnelCount(u: User) returns (count: int)
      ensures count == At(keys, u) && count == if u in keys then keys[u] else 0
    {
      if u !in keys {
        return 0;
      }
      return keys[u];
    }

    method IncrementTunnelCount(u: User) returns (count: int)
      modifies this
      ensures keys == Incr(old(keys), u) && count == At(keys, u)
      ensures u in keys && keys[u] == 1 + (if u in old(keys) then old(keys)[u] else 0) && keys - {u} == old(keys) - {u}
    {
      count := (if u in keys then keys[u] else 0) + 1;
      keys := keys[u := count];
    }

    method DecrementTunnelCount(u: User) returns (count: int)
      modifies this
      ensures keys == Decr(old(keys), u) && count == At(keys, u)
      ensures u in keys && keys[u] == (if u in old(keys) && old(keys)[u] > 0 then old(keys)[u] - 1 else 0)
      ensures keys - {u} == old(keys) - {u}
    {
      var was: int := if u in keys then keys[u] else 0;
      count := was - 1;
      if count < 0 {
        keys := keys[u := 0];
        return 0;
      }
      keys := keys[u := count];
    }
  }
}
