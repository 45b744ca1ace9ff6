/**
 Alarms as values: what one tick of the system clock does to the registered alarms, and what holds over
 every run of ticks, registrations and stops. Each alarm carries its past; nothing the clock does depends on it.
 */
module AlarmRuns {
  import opened Runs

  /**
   `born` is the tick of registration and `delay` the ticks asked for then; `fired` lists the ticks at which the
   callback ran and `periods` what it returned each time.
   */
  datatype Alarm = Alarm(id: nat, time: nat, born: nat, delay: nat, fired: seq<nat>, periods: seq<nat>)

  /** What a callback does: the period it returns, and whether it unregisters its own alarm before returning. */
  datatype Reply = Reply(period: nat, stops: bool)

  /** The reply of each alarm's callback at each tick. */
  type Callback = (nat, nat) -> Reply

  function Registered(id: nat, now: nat, delay: nat): Alarm
  {
    Alarm(id, delay + now + 1, now, delay, [], [])
  }

  predicate IsDue(a: Alarm, now: nat) { a.time <= now }

  function Fire(a: Alarm, now: nat, r: Reply): Alarm
  {
    a.(time := a.time + r.period, fired := a.fired + [now], periods := a.periods + [r.period])
  }

  predicate Leaves(r: Reply) { r.period == 0 || r.stops }

  /** The alarms that stay after a tick, in their order. */
  function Ticked(list: seq<Alarm>, now: nat, cb: Callback): seq<Alarm>
  {
    if list == [] then []
    else
      var (a, rest) := (list[0], Ticked(list[1..], now, cb));
      if !IsDue(a, now) then [a] + rest
      else if Leaves(cb(a.id, now)) then rest
      else [Fire(a, now, cb(a.id, now))] + rest
  }

  /** The alarms a tick removes, in their order. */
  function Dropped(list: seq<Alarm>, now: nat, cb: Callback): seq<Alarm>
  {
    if list == [] then []
    else
      var (a, rest) := (list[0], Dropped(list[1..], now, cb));
      if IsDue(a, now) && Leaves(cb(a.id, now)) then [Fire(a, now, cb(a.id, now))] + rest else rest
  }

  /** The alarms whose callbacks a tick runs, in their order. */
  function Called(list: seq<Alarm>, now: nat): seq<nat>
  {
    if list == [] then []
    else if IsDue(list[0], now) then [list[0].id] + Called(list[1..], now)
    else Called(list[1..], now)
  }

  /** One more alarm visited. */
  lemma {:induction false} TickedMore(list: seq<Alarm>, a: Alarm, now: nat, cb: Callback)
    ensures Ticked(list + [a], now, cb) == Ticked(list, now, cb) + Ticked([a], now, cb)
    ensures Dropped(list + [a], now, cb) == Dropped(list, now, cb) + Dropped([a], now, cb)
    ensures Called(list + [a], now) == Called(list, now) + Called([a], now)
  {
    if list == [] {
      assert [] + [a] == [a];
    } else {
      assert (list + [a])[0] == list[0] && (list + [a])[1..] == list[1..] + [a];
      TickedMore(list[1..], a, now, cb);
    }
  }

  /** The same for the alarms up to one of a list, in terms of that one. */
  lemma TickedUpTo(list: seq<Alarm>, i: nat, now: nat, cb: Callback)
    requires i < |list|
    ensures var a, r := list[i], cb(list[i].id, now);
            && Ticked(list[..i + 1], now, cb)
               == Ticked(list[..i], now, cb)
                  + (if !IsDue(a, now) then [a] else if Leaves(r) then [] else [Fire(a, now, r)])
            && Dropped(list[..i + 1], now, cb)
               == Dropped(list[..i], now, cb) + (if IsDue(a, now) && Leaves(r) then [Fire(a, now, r)] else [])
            && Called(list[..i + 1], now) == Called(list[..i], now) + (if IsDue(a, now) then [a.id] else [])
  {
    assert list[..i + 1] == list[..i] + [list[i]];
    TickedMore(list[..i], list[i], now, cb);
    assert [list[i]][1..] == [];
  }

  function Ids(list: seq<Alarm>): (s: seq<nat>)
  {
    if list == [] then [] else [list[0].id] + Ids(list[1..])
  }

  /** Each alarm present at the start of a tick is dealt with once: it stays or it goes, and never both. */
  lemma {:induction false} TickKeepsOrDrops(list: seq<Alarm>, now: nat, cb: Callback)
    ensures multiset(Ids(list)) == multiset(Ids(Ticked(list, now, cb))) + multiset(Ids(Dropped(list, now, cb)))
  {
    if list != [] {
      var a, kept, gone := list[0], Ticked(list[1..], now, cb), Dropped(list[1..], now, cb);
      TickKeepsOrDrops(list[1..], now, cb);
      assert ([a] + kept)[1..] == kept;
      assert ([Fire(a, now, cb(a.id, now))] + kept)[1..] == kept;
      assert ([Fire(a, now, cb(a.id, now))] + gone)[1..] == gone;
    }
  }

  // ----------------------------------------------------------------------------------------------
  // On time
  // ----------------------------------------------------------------------------------------------

  function Sum(s: seq<nat>): nat
  {
    if s == [] then 0 else Sum(s[..|s| - 1]) + s[|s| - 1]
  }

  /** When an alarm is due for the `i`-th time: no delay of one call is carried over to the next. */
  function DueTime(a: Alarm, i: nat): nat
    requires i <= |a.periods|
  {
    a.born + a.delay + 1 + Sum(a.periods[..i])
  }

  /** Every call so far was made at its due time. */
  ghost predicate Punctual(a: Alarm)
  {
    |a.fired| == |a.periods| && forall i :: 0 <= i < |a.fired| ==> a.fired[i] == DueTime(a, i)
  }

  /** The next call is still to come, at its due time. */
  ghost predicate Waiting(a: Alarm, now: nat)
  {
    Punctual(a) && now < a.time == DueTime(a, |a.fired|)
  }

  ghost predicate AllWaiting(list: seq<Alarm>, now: nat)
  {
    forall i :: 0 <= i < |list| ==> Waiting(list[i], now)
  }

  ghost predicate AllPunctual(list: seq<Alarm>)
  {
    forall i :: 0 <= i < |list| ==> Punctual(list[i])
  }

  lemma FirePunctual(a: Alarm, now: nat, r: Reply)
    requires Waiting(a, now) && IsDue(a, now + 1)
    ensures var b := Fire(a, now + 1, r);
            Punctual(b) && b.time == DueTime(b, |b.fired|) && b.fired == a.fired + [DueTime(a, |a.fired|)]
  {
    var b := Fire(a, now + 1, r);
    var n := |a.fired|;
    assert b.periods[..n + 1][..n] == a.periods && b.periods[..n] == a.periods[..n] == a.periods;
    forall i | 0 <= i < |b.fired| ensures b.fired[i] == DueTime(b, i) {
      assert b.periods[..i] == a.periods[..i];
    }
  }

  lemma {:induction false} TickPunctual(list: seq<Alarm>, now: nat, cb: Callback)
    requires AllWaiting(list, now)
    ensures AllWaiting(Ticked(list, now + 1, cb), now + 1)
    ensures AllPunctual(Dropped(list, now + 1, cb))
  {
    if list != [] {
      TickPunctual(list[1..], now, cb);
      if IsDue(list[0], now + 1) { FirePunctual(list[0], now, cb(list[0].id, now + 1)); }
    }
  }

  // ----------------------------------------------------------------------------------------------
  // Runs
  // ----------------------------------------------------------------------------------------------

  datatype Action = Tick | Start(id: nat, delay: nat) | Stop(k: nat)

  /** `gone` collects the alarms that were removed. */
  datatype Clock = Clock(cb: Callback, now: nat, list: seq<Alarm>, gone: seq<Alarm>)

  function Next(c: Clock, a: Action): Clock
  {
    match a
    case Tick =>
      c.(now := c.now + 1, list := Ticked(c.list, c.now + 1, c.cb), gone := c.gone + Dropped(c.list, c.now + 1, c.cb))
    case Start(id, delay) => c.(list := [Registered(id, c.now, delay)] + c.list)
    case Stop(k) =>
      if k < |c.list| then c.(list := c.list[..k] + c.list[k + 1..], gone := c.gone + [c.list[k]]) else c
  }

  ghost predicate OnTime(c: Clock)
  {
    AllWaiting(c.list, c.now) && AllPunctual(c.gone)
  }

  lemma NextOnTime(c: Clock, a: Action)
    requires OnTime(c)
    ensures OnTime(Next(c, a))
  {
    match a
    case Tick => TickPunctual(c.list, c.now, c.cb);
    case Start(id, delay) => assert Waiting(Registered(id, c.now, delay), c.now);
    case Stop(k) =>
  }

  function Reach(cb: Callback, now: nat, acts: seq<Action>): Clock
  {
    Run(Next, Clock(cb, now, [], []), acts)
  }

  lemma {:induction false} RunsOnTime(cb: Callback, now: nat, acts: seq<Action>)
    ensures OnTime(Reach(cb, now, acts))
  {
    if acts != [] {
      RunsOnTime(cb, now, acts[..|acts| - 1]);
      NextOnTime(Reach(cb, now, acts[..|acts| - 1]), acts[|acts| - 1]);
    }
  }

  /**
   Over every run: each alarm, registered still or removed, was called at its due times and at no others, and no
   due time of a registered one has passed without a call: the next one is still to come.
   */
  lemma AlarmsOnTime(cb: Callback, now: nat, acts: seq<Action>)
    ensures var c := Reach(cb, now, acts);
            && (forall a :: a in c.gone ==> Punctual(a))
            && (forall a :: a in c.list ==> Punctual(a) && c.now < a.time == DueTime(a, |a.fired|))
  {
    RunsOnTime(cb, now, acts);
    var c := Reach(cb, now, acts);
    assert forall k :: 0 <= k < |c.list| ==> Waiting(c.list[k], c.now);
    assert forall k :: 0 <= k < |c.gone| ==> Punctual(c.gone[k]);
  }
}
