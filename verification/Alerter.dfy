/**
  `CommonAlerter.DoAlertTextLazy`: one timer per group, set by a group's first call, moved by every
  alert and by every reset. The clock is a parameter of the call; sending the alert is the returned flag.
 */
module Alerters {
  import opened Text

  type Seconds = int

  /** The new timer, and whether an alert goes out. */
  function Decide(timer: Option<Seconds>, now: Seconds, interval: Seconds, reset: Seconds): (Seconds, bool) {
    if timer.None? then (now, false)
    else if now - timer.value >= reset then (now, false)
    else if now - timer.value >= interval then (now, true)
    else (timer.value, false)
  }

  class CommonAlerter {
    const lazyInterval: Seconds
    const lazyReset: Seconds
    var lazyTimer: map<string, Seconds>

    constructor (lazyInterval: Seconds, lazyReset: Seconds)
      ensures this.lazyInterval == lazyInterval && this.lazyReset == lazyReset && lazyTimer == map[]
    {
      this.lazyInterval, this.lazyReset, lazyTimer := lazyInterval, lazyReset, map[];
    }

    method DoAlertTextLazy(group: string, now: Seconds) returns (alerted: bool)
      modifies this
      ensures (lazyTimer, alerted) == Call(old(lazyTimer), group, now, lazyInterval, lazyReset)
    {
      alerted := false;
      if group !in lazyTimer {
        lazyTimer := lazyTimer[group := now];
      } else {
        var timer := lazyTimer[group];
        if now - timer >= lazyReset {
          lazyTimer := lazyTimer[group := now];
          return;
        }
        if now - timer >= lazyInterval {
          alerted := true;
          lazyTimer := lazyTimer[group := now];
        }
      }
      assert alerted || group !in old(lazyTimer) || lazyTimer == old(lazyTimer)[group := old(lazyTimer)[group]];
    }
  }

  function TimerOf(timers: map<string, Seconds>, group: string): Option<Seconds> {
    if group in timers then Some(timers[group]) else None
  }

  /** One call: all timers afterwards, and whether it alerted. */
  function Call(timers: map<string, Seconds>, group: string, now: Seconds, interval: Seconds, reset: Seconds)
    : (map<string, Seconds>, bool)
  {
    var (t, alerted) := Decide(TimerOf(timers, group), now, interval, reset);
    (timers[group := t], alerted)
  }

  // ---- Runs over any mixture of groups ----

  datatype Event = Event(group: string, now: Seconds)

  function Timers(calls: seq<Event>, interval: Seconds, reset: Seconds): map<string, Seconds> {
    if calls == [] then map[]
    else
      var last := calls[|calls| - 1];
      Call(Timers(calls[..|calls| - 1], interval, reset), last.group, last.now, interval, reset).0
  }

  predicate Alerted(calls: seq<Event>, i: nat, interval: Seconds, reset: Seconds)
    requires i < |calls|
  {
    Call(Timers(calls[..i], interval, reset), calls[i].group, calls[i].now, interval, reset).1
  }

  function Alerts(calls: seq<Event>, group: string, interval: Seconds, reset: Seconds): nat {
    if calls == [] then 0
    else
      var n := |calls| - 1;
      Alerts(calls[..n], group, interval, reset)
      + if calls[n].group == group && Alerted(calls, n, interval, reset) then 1 else 0
  }

  /** The times of one group's calls. */
  function Times(calls: seq<Event>, group: string): seq<Seconds> {
    if calls == [] then []
    else
      var n := |calls| - 1;
      Times(calls[..n], group) + if calls[n].group == group then [calls[n].now] else []
  }

  predicate NonDecreasing(ts: seq<Seconds>) {
    forall i, j :: 0 <= i < j < |ts| ==> ts[i] <= ts[j]
  }

  /** Consecutive calls are at most g apart. */
  predicate GapsAtMost(ts: seq<Seconds>, g: Seconds) {
    forall i :: 0 < i < |ts| ==> ts[i] - ts[i - 1] <= g
  }

  lemma NonDecreasingTimes(calls: seq<Event>, group: string)
    requires calls != [] && NonDecreasing(Times(calls, group))
    ensures NonDecreasing(Times(calls[..|calls| - 1], group))
  {
    var ts, before := Times(calls, group), Times(calls[..|calls| - 1], group);
    assert forall i :: 0 <= i < |before| ==> before[i] == ts[i];
  }

  lemma PayOne(k: nat, price: int)
    ensures (k + 1) * price == k * price + price
  {}

  /** The timer of a called group lies between its first and last call, and pays for every alert. */
  lemma {:induction false} TimerPaysForAlerts(calls: seq<Event>, group: string, interval: Seconds, reset: Seconds)
    requires reset >= 0 && NonDecreasing(Times(calls, group))
    ensures group in Timers(calls, interval, reset) <==> Times(calls, group) != []
    ensures Times(calls, group) == [] ==> Alerts(calls, group, interval, reset) == 0
    ensures var ts := Times(calls, group);
      ts != [] ==>
        var timer := Timers(calls, interval, reset)[group];
        timer <= ts[|ts| - 1] && Alerts(calls, group, interval, reset) * interval <= timer - ts[0]
  {
    if calls != [] {
      var n := |calls| - 1;
      NonDecreasingTimes(calls, group);
      TimerPaysForAlerts(calls[..n], group, interval, reset);
      var before, ts := Times(calls[..n], group), Times(calls, group);
      if calls[n].group == group && before != [] {
        assert ts[0] == before[0] && ts[|before| - 1] == before[|before| - 1] && ts[|before|] == calls[n].now;
        PayOne(Alerts(calls[..n], group, interval, reset), interval);
      }
    }
  }

  /** Rate limit: k alerts of a group whose calls span T seconds take k * lazyInterval <= T, whatever else is called. */
  lemma RateLimit(calls: seq<Event>, group: string, interval: Seconds, reset: Seconds)
    requires reset >= 0 && NonDecreasing(Times(calls, group)) && Times(calls, group) != []
    ensures var ts := Times(calls, group);
      Alerts(calls, group, interval, reset) * interval <= ts[|ts| - 1] - ts[0]
  {
    TimerPaysForAlerts(calls, group, interval, reset);
  }

  lemma GapsBefore(calls: seq<Event>, group: string, g: Seconds)
    requires calls != [] && GapsAtMost(Times(calls, group), g)
    ensures GapsAtMost(Times(calls[..|calls| - 1], group), g)
  {
    var ts, before := Times(calls, group), Times(calls[..|calls| - 1], group);
    assert forall i :: 0 <= i < |before| ==> before[i] == ts[i];
  }

  /**
    A call alerts exactly when its group's timer is at least lazyInterval and less than lazyReset old. The timer
    moves to the call when there was none, when the call alerts and when the timer is lazyReset old or
    more; other groups' timers stay.
   */
  lemma AlertsExactly(calls: seq<Event>, i: nat, other: string, interval: Seconds, reset: Seconds)
    requires i < |calls|
    ensures var g, now := calls[i].group, calls[i].now;
      var before, after := Timers(calls[..i], interval, reset), Timers(calls[..i + 1], interval, reset);
      && (Alerted(calls, i, interval, reset) <==> g in before && interval <= now - before[g] < reset)
      && g in after
      && (after[g] == if g in before && now - before[g] < interval && now - before[g] < reset then before[g] else now)
      && (other != g ==> TimerOf(after, other) == TimerOf(before, other))
  {
    assert calls[..i + 1][..i] == calls[..i];
  }

  /** A call that comes lazyReset or more after the group's last call does not alert, it restarts the timer. */
  lemma SilenceResets(calls: seq<Event>, i: nat, interval: Seconds, reset: Seconds)
    requires reset >= 0 && i < |calls|
    requires var before := Times(calls[..i], calls[i].group);
      before != [] && NonDecreasing(before) && calls[i].now - before[|before| - 1] >= reset
    ensures !Alerted(calls, i, interval, reset)
    ensures TimerOf(Timers(calls[..i + 1], interval, reset), calls[i].group) == Some(calls[i].now)
  {
    TimerPaysForAlerts(calls[..i], calls[i].group, interval, reset);
    AlertsExactly(calls, i, "", interval, reset);
  }

  /** With calls close enough together the timer is never an interval behind the last call. */
  lemma {:induction false} NeverResets(calls: seq<Event>, group: string, interval: Seconds, reset: Seconds, g: Seconds)
    requires 0 < interval && 0 <= g && interval + g <= reset
    requires NonDecreasing(Times(calls, group)) && GapsAtMost(Times(calls, group), g)
    ensures group in Timers(calls, interval, reset) <==> Times(calls, group) != []
    ensures Times(calls, group) == [] ==> Alerts(calls, group, interval, reset) == 0
    ensures var ts := Times(calls, group);
      ts != [] ==>
        var timer := Timers(calls, interval, reset)[group];
        && timer <= ts[|ts| - 1] < timer + interval
        && timer - ts[0] <= Alerts(calls, group, interval, reset) * (interval + g)
  {
    if calls != [] {
      var n := |calls| - 1;
      NonDecreasingTimes(calls, group);
      GapsBefore(calls, group, g);
      NeverResets(calls[..n], group, interval, reset, g);
      var before, ts := Times(calls[..n], group), Times(calls, group);
      if calls[n].group == group && before != [] {
        assert ts[0] == before[0] && ts[|before| - 1] == before[|before| - 1] && ts[|before|] == calls[n].now;
        PayOne(Alerts(calls[..n], group, interval, reset), interval + g);
      }
    }
  }

  /**
    No starvation: when a group's calls are at most g apart and lazyInterval + g <= lazyReset, a call
    alerts exactly when lazyInterval has passed since the timer, the reset never fires, and the number k of
    alerts satisfies T < k * (lazyInterval + g) + lazyInterval.
   */
  lemma EveryDueCallAlerts(calls: seq<Event>, i: nat, interval: Seconds, reset: Seconds, g: Seconds)
    requires 0 < interval && 0 <= g && interval + g <= reset && i < |calls|
    requires var ts := Times(calls[..i + 1], calls[i].group); NonDecreasing(ts) && GapsAtMost(ts, g)
    ensures var group := calls[i].group;
      var before, ts := Timers(calls[..i], interval, reset), Times(calls[..i + 1], group);
      && (group in before ==> calls[i].now - before[group] < reset)
      && (Alerted(calls, i, interval, reset) <==> group in before && calls[i].now - before[group] >= interval)
      && ts[|ts| - 1] - ts[0] < Alerts(calls[..i + 1], group, interval, reset) * (interval + g) + interval
  {
    var upTo, group := calls[..i + 1], calls[i].group;
    assert upTo[..i] == calls[..i] && upTo[i] == calls[i];
    NonDecreasingTimes(upTo, group);
    GapsBefore(upTo, group, g);
    NeverResets(calls[..i], group, interval, reset, g);
    NeverResets(upTo, group, interval, reset, g);
    var before, ts := Times(calls[..i], group), Times(upTo, group);
    assert ts == before + [calls[i].now];
    if before != [] {
      assert ts[|before|] - ts[|before| - 1] <= g;
    }
  }
}
