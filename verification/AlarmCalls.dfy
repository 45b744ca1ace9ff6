/**
 Which calls alarms get over a run: what their callbacks replied decides when they are called again and whether they
 stay, the first call comes when it was asked for, and an alarm that left is not called any more.
 */
module AlarmCalls {
  import opened AlarmRuns
  import opened Runs

  // ----------------------------------------------------------------------------------------------
  // Replies
  // ----------------------------------------------------------------------------------------------

  /** The periods kept are those the callback returned. */
  ghost predicate Replied(a: Alarm, cb: Callback)
  {
    |a.periods| == |a.fired| && forall k :: 0 <= k < |a.fired| ==> a.periods[k] == cb(a.id, a.fired[k]).period
  }

  /** None of the first `n` calls asked to stop, nor returned a period of zero. */
  ghost predicate Stays(a: Alarm, cb: Callback, n: int)
  {
    n <= |a.fired| && forall k :: 0 <= k < n ==> cb(a.id, a.fired[k]).period > 0 && !cb(a.id, a.fired[k]).stops
  }

  ghost predicate OnList(a: Alarm, cb: Callback) { Replied(a, cb) && Stays(a, cb, |a.fired|) }

  /** The last call, and no other, asked to stop or returned zero. */
  ghost predicate LeftItself(a: Alarm, cb: Callback)
  {
    && Replied(a, cb) && a.fired != [] && Stays(a, cb, |a.fired| - 1)
    && var last := cb(a.id, a.fired[|a.fired| - 1]); last.period == 0 || last.stops
  }

  ghost predicate AllOnList(list: seq<Alarm>, cb: Callback)
  {
    forall i :: 0 <= i < |list| ==> OnList(list[i], cb)
  }

  ghost predicate AllLeft(list: seq<Alarm>, cb: Callback)
  {
    forall i :: 0 <= i < |list| ==> LeftItself(list[i], cb) || OnList(list[i], cb)
  }

  ghost predicate AllLeftThemselves(list: seq<Alarm>, cb: Callback)
  {
    forall i :: 0 <= i < |list| ==> LeftItself(list[i], cb)
  }

  lemma FireReplies(a: Alarm, now: nat, cb: Callback)
    requires OnList(a, cb)
    ensures var r, b := cb(a.id, now), Fire(a, now, cb(a.id, now));
            if r.period == 0 || r.stops then LeftItself(b, cb) else OnList(b, cb)
  {
  }

  lemma {:induction false} TickReplies(list: seq<Alarm>, now: nat, cb: Callback)
    requires AllOnList(list, cb)
    ensures AllOnList(Ticked(list, now, cb), cb) && AllLeftThemselves(Dropped(list, now, cb), cb)
  {
    if list != [] {
      TickReplies(list[1..], now, cb);
      FireReplies(list[0], now, cb);
    }
  }

  ghost predicate RepliesKept(c: Clock) { AllOnList(c.list, c.cb) && AllLeft(c.gone, c.cb) }

  lemma NextReplies(c: Clock, a: Action)
    requires RepliesKept(c)
    ensures RepliesKept(Next(c, a)) && Next(c, a).cb == c.cb
  {
    if a.Tick? { TickReplies(c.list, c.now + 1, c.cb); }
  }

  /**
   Over every run: an alarm on the list was never called with a reply that stops it, every period it waited for is one
   its callback returned, and one that is gone has had no call after such a reply.
   */
  lemma {:induction false} RepliesDecide(cb: Callback, now: nat, acts: seq<Action>)
    ensures RepliesKept(Reach(cb, now, acts)) && Reach(cb, now, acts).cb == cb
  {
    if acts != [] {
      RepliesDecide(cb, now, acts[..|acts| - 1]);
      NextReplies(Reach(cb, now, acts[..|acts| - 1]), acts[|acts| - 1]);
    }
  }

  /** When nobody else stops alarms, one that is gone left by the reply to its last call. */
  lemma {:induction false} OnlyRepliesRemove(cb: Callback, now: nat, acts: seq<Action>)
    requires forall i :: 0 <= i < |acts| ==> !acts[i].Stop?
    ensures AllLeftThemselves(Reach(cb, now, acts).gone, cb)
  {
    if acts != [] {
      var front := acts[..|acts| - 1];
      OnlyRepliesRemove(cb, now, front);
      RepliesDecide(cb, now, front);
      var c := Reach(cb, now, front);
      TickReplies(c.list, c.now + 1, cb);
    }
  }

  // ----------------------------------------------------------------------------------------------
  // The first call
  // ----------------------------------------------------------------------------------------------

  /** An alarm that was registered at tick `born` for `delay` ticks and has not been called. */
  ghost predicate Pending(a: Alarm, id: nat, born: nat, delay: nat)
  {
    a.id == id && a.born == born && a.delay == delay && a.fired == [] && a.time == born + delay + 1
  }

  /** The same alarm after its first call, at tick `at`. */
  ghost predicate CalledOnce(a: Alarm, id: nat, born: nat, delay: nat, at: nat)
  {
    a.id == id && a.born == born && a.delay == delay && a.fired == [at]
  }

  lemma FirstTurn(list: seq<Alarm>, now: nat, cb: Callback, id: nat, born: nat, delay: nat)
    requires list != [] && Pending(list[0], id, born, delay)
    ensures var kept, gone := Ticked(list, now, cb), Dropped(list, now, cb);
            if now < born + delay + 1 then kept != [] && Pending(kept[0], id, born, delay)
            else (kept != [] && CalledOnce(kept[0], id, born, delay, now))
                 || (gone != [] && CalledOnce(gone[0], id, born, delay, now))
  {
  }

  /** The clock after `k` ticks, with a pending alarm first on its list. */
  ghost predicate Counting(c: Clock, cb: Callback, now: nat, id: nat, born: nat, delay: nat)
  {
    c.cb == cb && c.now == now && c.list != [] && Pending(c.list[0], id, born, delay)
  }

  lemma {:induction false} Counts(c: Clock, k: nat, id: nat, delay: nat)
    requires c.list != [] && Pending(c.list[0], id, c.now, delay) && k <= delay
    ensures Counting(Run(Next, c, Repeated(Tick, k)), c.cb, c.now + k, id, c.now, delay)
  {
    if k > 0 {
      var d := Run(Next, c, Repeated(Tick, k - 1));
      Counts(c, k - 1, id, delay);
      assert Repeated(Tick, k) == Repeated(Tick, k - 1) + [Tick];
      RunOneMore(Next, c, Repeated(Tick, k - 1), Tick);
      FirstTurn(d.list, d.now + 1, d.cb, id, c.now, delay);
    }
  }

  /** `after` is the tick that calls it. */
  ghost predicate CalledInTime(before: Clock, after: Clock, id: nat, born: nat, delay: nat)
  {
    && before.list != [] && Pending(before.list[0], id, born, delay) && before.now == born + delay
    && ((after.list != [] && CalledOnce(after.list[0], id, born, delay, born + delay + 1))
        || (|after.gone| > |before.gone| && CalledOnce(after.gone[|before.gone|], id, born, delay, born + delay + 1)))
  }

  lemma FirstTick(c: Clock, id: nat, born: nat, delay: nat)
    requires c.list != [] && Pending(c.list[0], id, born, delay) && c.now == born + delay
    ensures CalledInTime(c, Next(c, Tick), id, born, delay)
  {
    FirstTurn(c.list, c.now + 1, c.cb, id, born, delay);
  }

  lemma StartPends(c: Clock, id: nat, delay: nat)
    ensures var d := Next(c, Start(id, delay)); d.list != [] && Pending(d.list[0], id, d.now, delay) && d.now == c.now
  {
  }

  /**
   An alarm that is started in any state for `delay` ticks is not called in any of the next `delay` ticks, and is called
   in the one after them.
   */
  lemma FirstCall(cb: Callback, now: nat, acts: seq<Action>, id: nat, delay: nat)
    ensures var c := Reach(cb, now, acts + [Start(id, delay)]);
            var before := Run(Next, c, Repeated(Tick, delay));
            c.now == Reach(cb, now, acts).now && CalledInTime(before, Next(before, Tick), id, c.now, delay)
  {
    var c := Reach(cb, now, acts + [Start(id, delay)]);
    RunOneMore(Next, Clock(cb, now, [], []), acts, Start(id, delay));
    StartPends(Reach(cb, now, acts), id, delay);
    Counts(c, delay, id, delay);
    FirstTick(Run(Next, c, Repeated(Tick, delay)), id, c.now, delay);
  }

  // ----------------------------------------------------------------------------------------------
  // What a tick reports, and stops
  // ----------------------------------------------------------------------------------------------

  function Calls(list: seq<Alarm>): nat
  {
    if list == [] then 0 else |list[0].fired| + Calls(list[1..])
  }

  /** The due time of an alarm with this name has come. */
  ghost predicate IdIsDue(list: seq<Alarm>, now: nat, id: nat)
  {
    exists i :: 0 <= i < |list| && list[i].id == id && list[i].time <= now
  }

  /** Each call a tick reports is one call more in the history of an alarm, and it reports just those that were due. */
  lemma {:induction false} TickReportsCalls(list: seq<Alarm>, now: nat, cb: Callback)
    ensures Calls(Ticked(list, now, cb)) + Calls(Dropped(list, now, cb)) == Calls(list) + |Called(list, now)|
    ensures forall x :: x in Called(list, now) <==> IdIsDue(list, now, x)
  {
    if list != [] {
      var a, kept, gone := list[0], Ticked(list[1..], now, cb), Dropped(list[1..], now, cb);
      TickReportsCalls(list[1..], now, cb);
      var b := Fire(a, now, cb(a.id, now));
      assert ([a] + kept)[1..] == kept && ([b] + kept)[1..] == kept && ([b] + gone)[1..] == gone;
      forall x ensures x in Called(list, now) <==> IdIsDue(list, now, x) {
        if x in Called(list[1..], now) {
          var i :| 0 <= i < |list[1..]| && list[1..][i].id == x && list[1..][i].time <= now;
          assert list[i + 1].id == x && list[i + 1].time <= now;
        }
        if i :| 0 < i < |list| && list[i].id == x && list[i].time <= now {
          assert list[1..][i - 1].id == x && list[1..][i - 1].time <= now;
        }
      }
    }
  }

  /** Stopping takes just that alarm off, and the others keep their order; stopping none changes nothing. */
  lemma StopTakesOne(c: Clock, k: nat)
    ensures var d := Next(c, Stop(k));
            if k < |c.list| then
              && |d.list| + 1 == |c.list| && d.gone == c.gone + [c.list[k]] && d.now == c.now
              && (forall i :: 0 <= i < k ==> d.list[i] == c.list[i])
              && (forall i :: k < i < |c.list| ==> d.list[i - 1] == c.list[i])
            else d == c
  {
  }

  /** What happens to a clock afterwards does not change the alarms that are gone: they are not called any more. */
  lemma {:induction false} GoneForGood(c: Clock, acts: seq<Action>)
    ensures c.gone <= Run(Next, c, acts).gone
  {
    if acts != [] {
      GoneForGood(c, acts[..|acts| - 1]);
    }
  }
}
