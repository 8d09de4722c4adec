/** The per-user sliding-window limiter: for each user, the times of the
    calls let through during the last `Window` seconds, oldest first. */
module RateLimiter {
  import Seqs

  /** `RATE_LIMIT_WINDOW`, in seconds. */
  const Window: real := 60.0
  /** `RATE_LIMIT_MAX_CALLS`. */
  const MaxCalls: nat := 5

  type Logs = map<int, seq<real>>

  /** The log of `user`; `setdefault` gives a new user an empty one. */
  function LogOf(logs: Logs, user: int): seq<real>
  {
    if user in logs then logs[user] else []
  }

  /** The `popleft` loop: drops timestamps from the front while the oldest
      one is at least `Window` seconds old. */
  function Pruned(log: seq<real>, now: real): (r: seq<real>)
    ensures |r| <= |log|
    ensures forall i :: 0 <= i < |r| ==> r[i] == log[|log| - |r| + i]
  {
    if log != [] && log[0] <= now - Window then Pruned(log[1..], now) else log
  }

  /** Pruning stops at the first timestamp inside the window, and only
      timestamps outside it are dropped. */
  lemma {:induction false} PrunedDropsOld(log: seq<real>, now: real)
    ensures var r := Pruned(log, now);
      && (r == [] || r[0] > now - Window)
      && (forall i :: 0 <= i < |log| - |r| ==> log[i] <= now - Window)
    decreases |log|
  {
    if log != [] && log[0] <= now - Window {
      PrunedDropsOld(log[1..], now);
      var r := Pruned(log, now);
      assert forall i :: 1 <= i < |log| ==> log[i] == log[1..][i - 1];
    }
  }

  /** Timestamps in the order they were recorded. */
  predicate Ascending(log: seq<real>)
  {
    forall i, j :: 0 <= i < j < |log| ==> log[i] <= log[j]
  }

  /** When the log is in order (the clock never went back), every timestamp
      left after pruning lies inside the window. */
  lemma PrunedInWindow(log: seq<real>, now: real)
    requires Ascending(log)
    ensures forall i :: 0 <= i < |Pruned(log, now)| ==> Pruned(log, now)[i] > now - Window
  {
    var r := Pruned(log, now);
    PrunedDropsOld(log, now);
    forall i | 0 <= i < |r|
      ensures r[i] > now - Window
    {
      assert r[i] == log[|log| - |r| + i] && r[0] == log[|log| - |r|];
    }
  }

  /** The outcome of one call: whether it is limited, and the logs after it. */
  datatype Decision = Decision(limited: bool, logs: Logs)

  /** `is_rate_limited(user)` at time `now`. */
  function Check(logs: Logs, user: int, now: real): (d: Decision)
    ensures d.limited <==> |Pruned(LogOf(logs, user), now)| >= MaxCalls
    ensures d.logs.Keys == logs.Keys + {user}
    ensures forall u :: u in logs && u != user ==> d.logs[u] == logs[u]
    ensures d.limited ==> d.logs[user] == Pruned(LogOf(logs, user), now)
    ensures !d.limited ==> d.logs[user] == Pruned(LogOf(logs, user), now) + [now]
  {
    var kept := Pruned(LogOf(logs, user), now);
    if |kept| >= MaxCalls then Decision(true, logs[user := kept])
    else Decision(false, logs[user := kept + [now]])
  }

  /** No log holds more than `MaxCalls` timestamps. */
  predicate Bounded(logs: Logs)
  {
    forall u :: u in logs ==> |logs[u]| <= MaxCalls
  }

  /** Every call keeps the bound. */
  lemma CheckBounded(logs: Logs, user: int, now: real)
    requires Bounded(logs)
    ensures Bounded(Check(logs, user, now).logs)
  {
  }

  /** With a clock that does not go back, every call keeps each log in
      order. */
  lemma CheckAscending(logs: Logs, user: int, now: real)
    requires Ascending(LogOf(logs, user))
    requires forall i :: 0 <= i < |LogOf(logs, user)| ==> LogOf(logs, user)[i] <= now
    ensures Ascending(Check(logs, user, now).logs[user])
  {
    var log := LogOf(logs, user);
    var kept := Pruned(log, now);
    assert Ascending(kept);
    assert forall i :: 0 <= i < |kept| ==> kept[i] <= now;
    AppendAscending(kept, now);
  }

  lemma AppendAscending(log: seq<real>, now: real)
    requires Ascending(log) && forall i :: 0 <= i < |log| ==> log[i] <= now
    ensures Ascending(log + [now])
  {
  }

  /** The timestamps of `log` that lie inside the window ending at `now`. */
  function Recent(log: seq<real>, now: real): (r: seq<real>)
    ensures |r| <= |log|
    ensures forall i :: 0 <= i < |r| ==> r[i] > now - Window && r[i] in log
  {
    if log == [] then []
    else if log[0] > now - Window then [log[0]] + Recent(log[1..], now)
    else Recent(log[1..], now)
  }

  /** On a log in order, pruning from the front keeps exactly the timestamps
      inside the window; so a call is limited exactly when `MaxCalls` calls
      were let through less than `Window` seconds before it. */
  lemma {:induction false} PrunedIsRecent(log: seq<real>, now: real)
    requires Ascending(log)
    ensures Pruned(log, now) == Recent(log, now)
    decreases |log|
  {
    if log != [] {
      if log[0] <= now - Window {
        PrunedIsRecent(log[1..], now);
      } else {
        AllRecent(log, now);
      }
    }
  }

  lemma {:induction false} AllRecent(log: seq<real>, now: real)
    requires Ascending(log)
    requires log != [] && log[0] > now - Window
    ensures Recent(log, now) == log
    decreases |log|
  {
    if |log| > 1 {
      AscendingTail(log);
      AllRecent(log[1..], now);
      Seqs.ConsHeadTail(log);
    }
  }

  lemma AscendingTail(log: seq<real>)
    requires Ascending(log) && |log| > 1
    ensures Ascending(log[1..]) && log[1..][0] >= log[0]
  {
  }

  /** `USER_CALL_LOGS` and `is_rate_limited`. */
  class Limiter {
    var logs: Logs

    constructor ()
      ensures logs == map[]
    {
      logs := map[];
    }

    /** The deque of `user` is pruned in place, then `now` is appended
        unless the user is already at the limit. */
    method IsRateLimited(user: int, now: real) returns (limited: bool)
      modifies this
      ensures Decision(limited, logs) == Check(old(logs), user, now)
    {
      if user !in logs {
        logs := logs[user := []];
      }
      var dq := logs[user];
      while dq != [] && dq[0] <= now - Window
        invariant Pruned(dq, now) == Pruned(LogOf(old(logs), user), now)
        decreases |dq|
      {
        dq := dq[1..];
      }
      assert dq == Pruned(LogOf(old(logs), user), now);
      if |dq| >= MaxCalls {
        logs := logs[user := dq];
        return true;
      }
      logs := logs[user := dq + [now]];
      limited := false;
    }
  }
}
