/**
 * `canLog`: a per-identifier cooldown over the module-level dictionary
 * `logHistory`, which maps a transmitter id to the time (in milliseconds) of
 * its last admitted relay. The clock reading `Date.now()` is a parameter.
 */
module RelayLimiter {

  /** `60 * 60 * 1000`: sixty minutes in milliseconds. */
  const SixtyMinutes: int := 60 * 60 * 1000

  /**
   * The denial guard: a truthy record (present and not 0) younger than sixty
   * minutes. A record of 0 is falsy in JavaScript and does not count.
   */
  predicate RecentlyLogged(history: map<string, int>, id: string, now: int) {
    id in history && history[id] != 0 && now - history[id] < SixtyMinutes
  }

  class LogHistory {
    /** The dictionary; JavaScript object keys are strings. */
    var entries: map<string, int>

    constructor ()
      ensures entries == map[]
    {
      entries := map[];
    }

    /** Admit and record `now`, or deny and change nothing. */
    method CanLog(id: string, now: int) returns (ok: bool)
      modifies this
      ensures ok <==> !RecentlyLogged(old(entries), id, now)
      ensures ok ==> entries == old(entries)[id := now]
      ensures !ok ==> entries == old(entries)
    {
      if id in entries && entries[id] != 0 && now - entries[id] < SixtyMinutes {
        return false;
      }
      entries := entries[id := now];
      return true;
    }
  }

  /** With no record for `id` (for example, on a fresh history) a call is admitted. */
  lemma FirstCallAdmitted(history: map<string, int>, id: string, now: int)
    requires id !in history
    ensures !RecentlyLogged(history, id, now)
  {
  }

  /**
   * After an admission at a non-zero time `t`, the same id is denied for the
   * next sixty minutes, and also at any earlier clock reading, and admitted
   * again once the sixty minutes have passed.
   */
  lemma CooldownWindow(history: map<string, int>, id: string, t: int, later: int)
    requires t != 0
    ensures RecentlyLogged(history[id := t], id, later) <==> later < t + SixtyMinutes
  {
  }

  /** Recording one id never changes the verdict for another. */
  lemma OtherIdsUnaffected(history: map<string, int>, id: string, other: string, t: int, now: int)
    requires other != id
    ensures RecentlyLogged(history[id := t], other, now) == RecentlyLogged(history, other, now)
  {
  }

  /** A record made at time 0 is falsy, so it never denies. */
  lemma ZeroTimestampNeverDenies(history: map<string, int>, id: string, now: int)
    ensures !RecentlyLogged(history[id := 0], id, now)
  {
  }

  /** A clock that runs backwards is still inside the window and denies. */
  lemma EarlierClockDenies(history: map<string, int>, id: string, now: int)
    requires id in history && history[id] != 0 && now <= history[id]
    ensures RecentlyLogged(history, id, now)
  {
    assert history[id := history[id]] == history;
    CooldownWindow(history, id, history[id], now);
  }

  /**
   * Admission at `t`, a repeat at `t + eps` inside the window, and a repeat
   * exactly sixty minutes after `t`, on one history.
   */
  method CooldownScenario(id: string, t: int, eps: int) returns (first: bool, second: bool, third: bool)
    requires t != 0 && 0 <= eps < SixtyMinutes
    ensures first && !second && third
  {
    var log := new LogHistory();
    first := log.CanLog(id, t);
    second := log.CanLog(id, t + eps);
    third := log.CanLog(id, t + SixtyMinutes);
  }

  /** Two different ids are both admitted at the same instant, in either order. */
  method DistinctIdsScenario(a: string, b: string, t: int) returns (first: bool, second: bool)
    requires a != b
    ensures first && second
  {
    var log := new LogHistory();
    first := log.CanLog(a, t);
    second := log.CanLog(b, t);
  }

  /**
   * A first call at time 0 and a second thirty minutes later are both
   * admitted, because the record 0 is falsy.
   */
  method ZeroStartScenario(id: string) returns (first: bool, second: bool)
    ensures first && second
  {
    var log := new LogHistory();
    first := log.CanLog(id, 0);
    second := log.CanLog(id, 1800 * 1000);
  }
}
