/**
 The list of alarms as the program keeps it: nodes linked both ways in a ring through a head that is not an
 alarm. `nodes` is the ring read from the head on.
 */
module Alarms {
  import opened AlarmCalls
  import opened AlarmRuns
  import opened Runs

  const EINVAL: int := 22
  const ENOTSUP: int := 134

  class Node {
    var next: Node?
    var previous: Node?
    var id: nat
    var time: nat
    ghost var born: nat
    ghost var delay: nat
    ghost var fired: seq<nat>
    ghost var periods: seq<nat>

    /** A node before it is registered for the first time. */
    constructor ()
      ensures next == null && previous == null
    {
      next, previous, id, time := null, null, 0, 0;
      born, delay, fired, periods := 0, 0, [], [];
    }

    ghost function Value(): Alarm
      reads this
    {
      Alarm(id, time, born, delay, fired, periods)
    }

    /** What removal leaves. */
    ghost predicate Alone()
      reads `next, `previous
    {
      next == this && previous == this
    }
  }

  ghost function Values(nodes: seq<Node>): (vs: seq<Alarm>)
    reads nodes
    ensures |vs| == |nodes| && forall i :: 0 <= i < |nodes| ==> vs[i] == nodes[i].Value()
  {
    seq(|nodes|, i requires 0 <= i < |nodes| reads nodes => nodes[i].Value())
  }

  /** What is left of `kept` and the rest of `all` when the first of the rest is taken out, and when it is kept. */
  lemma CutOut<T>(kept: seq<T>, all: seq<T>, i: nat)
    requires i <= |all|
    ensures var k, s := |kept|, kept + all[i..];
            i < |all| ==>
              && s[k] == all[i] && s[..k] + s[k + 1..] == kept + all[i + 1..]
              && s == kept + [all[i]] + all[i + 1..]
  {
  }

  ghost predicate Linked(a: Node, b: Node)
    reads a`next, b`previous
  {
    a.next == b && b.previous == a
  }

  /** The ring of the nodes `ns`, with the head at both ends. */
  ghost function At(head: Node, ns: seq<Node>, i: int): Node
  {
    if 0 <= i < |ns| then ns[i] else head
  }

  /** A list without its entry `k`; all of it for -1. */
  function Without<T>(s: seq<T>, k: int): seq<T>
  {
    if 0 <= k < |s| then s[..k] + s[k + 1..] else s
  }

  lemma AtWithout(head: Node, ns: seq<Node>, k: nat, i: int)
    requires k < |ns| && -1 <= i < |ns|
    ensures At(head, Without(ns, k), i) == At(head, ns, if i < k then i else i + 1)
  {
  }

  class AlarmList {
    const head: Node
    var rate: nat
    var nticks: nat
    ghost var nodes: seq<Node>
    ghost var Repr: set<Node>

    ghost predicate Valid()
      reads `nodes, `Repr, head`next, head`previous, Repr`next, Repr`previous
    {
      && head !in Repr && (forall i :: 0 <= i < |nodes| ==> nodes[i] in Repr)
      && (forall i, j :: 0 <= i < j < |nodes| ==> nodes[i] != nodes[j])
      && (forall i, j :: -1 <= i < |nodes| && j == i + 1 ==> Linked(At(head, nodes, i), At(head, nodes, j)))
    }

    constructor (rate: nat)
      ensures Valid() && nodes == [] && nticks == 0 && this.rate == rate && Repr == {} && fresh(head)
    {
      head := new Node();
      this.rate, nticks, nodes, Repr := rate, 0, [], {};
      new;
      head.next, head.previous := head, head;
    }

    /** Links a node in as the first one. */
    method Insert(entry: Node)
      requires Valid() && entry != head && entry !in nodes
      modifies `nodes, `Repr, head`next, head`previous, entry`next, entry`previous, Repr
      ensures Valid() && nodes == [entry] + old(nodes) && Repr == old(Repr) + {entry}
      ensures forall n :: n in Repr ==> n.Value() == old(n.Value())
    {
      assert Linked(At(head, nodes, -1), At(head, nodes, 0));
      entry.previous := head;
      entry.next := head.next;
      head.next.previous := entry;
      head.next := entry;
      nodes, Repr := [entry] + nodes, Repr + {entry};
      forall i, j | -1 <= i < |nodes| && j == i + 1 ensures Linked(At(head, nodes, i), At(head, nodes, j)) {
        if i > 0 {
          assert At(head, nodes, i) == At(head, old(nodes), i - 1) && At(head, nodes, j) == At(head, old(nodes), i);
        }
      }
    }

    /** Entry `k` of the list is this node; or, with -1, the node is not on the list and linked to itself. */
    ghost predicate Placed(entry: Node, k: int)
      reads `nodes, entry`next, entry`previous
    {
      if k >= 0 then k < |nodes| && nodes[k] == entry else k == -1 && entry !in nodes && entry.Alone()
    }

    /** Joins a node's neighbours and links it to itself. */
    method Unlink(entry: Node)
      requires entry.next != null && entry.previous != null
      modifies entry`next, entry`previous, entry.next`previous, entry.previous`next
      ensures entry.Alone()
      ensures old(entry.next) != entry ==> old(entry.next).previous == old(entry.previous)
      ensures old(entry.previous) != entry ==> old(entry.previous).next == old(entry.next)
    {
      entry.next.previous := entry.previous;
      entry.previous.next := entry.next;
      entry.previous := entry;
      entry.next := entry;
    }

    /** Removes a node; done once more, or to a node that is alone, it changes nothing. */
    method Remove(entry: Node, ghost k: int)
      requires Valid() && entry != head && Placed(entry, k)
      modifies `nodes, head`next, head`previous, entry`next, entry`previous, Repr
      ensures Valid() && Placed(entry, -1) && nodes == Without(old(nodes), k)
      ensures forall n :: n in Repr || n == entry ==> n.Value() == old(n.Value())
      ensures forall n :: n in Repr && n !in old(nodes) && n != entry ==>
                n.next == old(n.next) && n.previous == old(n.previous)
    {
      if k >= 0 {
        assert Linked(At(head, nodes, k), At(head, nodes, k + 1)) && Linked(At(head, nodes, k - 1), At(head, nodes, k));
        assert forall i, j :: -1 <= i < j <= |nodes| && At(head, nodes, i) == At(head, nodes, j) ==>
                              i == -1 && j == |nodes|;
      }
      Unlink(entry);
      if k >= 0 {
        nodes := Without(nodes, k);
        forall i, j | -1 <= i < |nodes| && j == i + 1 ensures Linked(At(head, nodes, i), At(head, nodes, j)) {
          AtWithout(head, old(nodes), k, i);
          AtWithout(head, old(nodes), k, j);
        }
      }
    }

    /** What is on the list are the values from before without that of entry `k`. */
    lemma ValuesWithout(ns: seq<Node>, k: int, was: seq<Alarm>)
      requires nodes == Without(ns, k) && |was| == |ns|
      requires forall i :: 0 <= i < |ns| && i != k ==> ns[i].Value() == was[i]
      ensures Values(nodes) == Without(was, k)
    {
      forall i | 0 <= i < |nodes| ensures nodes[i].Value() == Without(was, k)[i] {
        assert nodes[i] == if 0 <= k <= i && k < |ns| then ns[i + 1] else ns[i];
      }
    }

    /** Takes an alarm off the list; one that is not on it stays off. */
    method Stop(alarm: Node, ghost k: int)
      requires Valid() && alarm != head && Placed(alarm, k)
      modifies `nodes, head`next, head`previous, alarm`next, alarm`previous, Repr
      ensures Valid() && Placed(alarm, -1)
      ensures Values(nodes) == Without(old(Values(nodes)), k)
    {
      ghost var ns, was := nodes, Values(nodes);
      Remove(alarm, k);
      ValuesWithout(ns, k, was);
    }

    /**
     One alarm's turn in a tick. The callback may stop its own alarm; a period of zero stops it too, and
     stopping it twice does no harm.
     */
    method Visit(alarm: Node, cb: Callback, ghost k: nat) returns (ran: bool)
      requires Valid() && k < |nodes| && nodes[k] == alarm
      modifies `nodes, head`next, head`previous, Repr
      ensures Valid() && ran == IsDue(old(alarm.Value()), nticks)
      ensures forall n :: n in Repr && n != alarm ==> n.Value() == old(n.Value())
      ensures forall n :: n in Repr && n !in old(nodes) ==> n.next == old(n.next) && n.previous == old(n.previous)
      ensures var a, r := old(alarm.Value()), cb(old(alarm.Value()).id, nticks);
              && alarm.Value() == (if ran then Fire(a, nticks, r) else a)
              && nodes == (if ran && Leaves(r) then Without(old(nodes), k) else old(nodes))
              && (ran && Leaves(r) ==> alarm.Alone())
    {
      ran := alarm.time <= nticks;
      if ran {
        var reply := cb(alarm.id, nticks);
        alarm.fired, alarm.periods := alarm.fired + [nticks], alarm.periods + [reply.period];
        if reply.stops { Remove(alarm, k); }
        if reply.period == 0 {
          Remove(alarm, if reply.stops then -1 else k);
        } else {
          alarm.time := alarm.time + reply.period;
        }
      }
    }

    /**
     Part of tick `now`: of the nodes `all`, whose values were `start`, the first `i` had their turn; `kept` of
     them are still on the list and `gone` are not.
     */
    ghost predicate Turns(cb: Callback, now: nat, all: seq<Node>, start: seq<Alarm>, i: nat,
                          kept: seq<Node>, gone: seq<Node>)
      reads `nodes, `Repr, all, kept, gone
    {
      && i <= |all| == |start| && nodes == kept + all[i..]
      && (forall j :: i <= j < |all| ==> all[j].Value() == start[j])
      && Values(kept) == Ticked(start[..i], now, cb)
      && Values(gone) == Dropped(start[..i], now, cb)
      && (forall n :: n in gone ==> n in all && n in Repr && n !in nodes && n.Alone())
    }

    lemma FirstTurn(cb: Callback, now: nat)
      requires Valid()
      ensures Turns(cb, now, nodes, Values(nodes), 0, [], [])
      ensures head.next == At(head, nodes, 0)
    {
      assert Linked(At(head, nodes, -1), At(head, nodes, 0));
      assert [] + nodes[0..] == nodes;
    }

    lemma NextTurn(cb: Callback, now: nat, all: seq<Node>, start: seq<Alarm>, i: nat, kept: seq<Node>, gone: seq<Node>)
      requires Valid() && Turns(cb, now, all, start, i, kept, gone) && At(head, nodes, |kept|) != head
      ensures i < |all| && At(head, nodes, |kept|) == all[i] && all[i].next == At(head, nodes, |kept| + 1)
      ensures all[i] != head
    {
      CutOut(kept, all, i);
      assert Linked(At(head, nodes, |kept|), At(head, nodes, |kept| + 1));
    }

    lemma LastTurn(cb: Callback, now: nat, all: seq<Node>, start: seq<Alarm>, i: nat, kept: seq<Node>, gone: seq<Node>)
      requires Valid() && Turns(cb, now, all, start, i, kept, gone) && At(head, nodes, |kept|) == head
      ensures i == |all| && kept == nodes && start[..i] == start
    {
      CutOut(kept, all, i);
    }

    /** The same but for the list itself, right after node `i` had its turn. */
    ghost predicate Visited(cb: Callback, now: nat, all: seq<Node>, start: seq<Alarm>, i: nat,
                            kept: seq<Node>, gone: seq<Node>)
      reads `nodes, `Repr, all, kept, gone
    {
      && i < |all| == |start|
      && (forall j :: i < j < |all| ==> all[j].Value() == start[j])
      && all[i].Value() == (if IsDue(start[i], now) then Fire(start[i], now, cb(start[i].id, now)) else start[i])
      && Values(kept) == Ticked(start[..i], now, cb)
      && Values(gone) == Dropped(start[..i], now, cb)
      && (forall n :: n in gone ==> n in all && n in Repr && n !in nodes && n.Alone())
    }

    lemma TurnKept(cb: Callback, now: nat, all: seq<Node>, start: seq<Alarm>, i: nat, kept: seq<Node>, gone: seq<Node>)
      requires Visited(cb, now, all, start, i, kept, gone) && nodes == kept + all[i..]
      requires !(IsDue(start[i], now) && Leaves(cb(start[i].id, now)))
      ensures Turns(cb, now, all, start, i + 1, kept + [all[i]], gone)
    {
      CutOut(kept, all, i);
      TickedUpTo(start, i, now, cb);
      assert Values(kept + [all[i]]) == Values(kept) + [all[i].Value()];
    }

    lemma TurnLeft(cb: Callback, now: nat, all: seq<Node>, start: seq<Alarm>, i: nat, kept: seq<Node>, gone: seq<Node>)
      requires Visited(cb, now, all, start, i, kept, gone) && nodes == kept + all[i + 1..]
      requires IsDue(start[i], now) && Leaves(cb(start[i].id, now))
      requires all[i] in Repr && all[i] !in nodes && all[i].Alone()
      ensures Turns(cb, now, all, start, i + 1, kept, gone + [all[i]])
    {
      TickedUpTo(start, i, now, cb);
      assert Values(gone + [all[i]]) == Values(gone) + [all[i].Value()];
    }

    /** The node whose turn it is, and the others. */
    lemma OthersDiffer(cb: Callback, now: nat, all: seq<Node>, start: seq<Alarm>, i: nat,
                       kept: seq<Node>, gone: seq<Node>)
      requires Valid() && Turns(cb, now, all, start, i, kept, gone) && i < |all|
      ensures |kept| < |nodes| && nodes[|kept|] == all[i] && all[i] in Repr
      ensures forall j :: 0 <= j < |kept| ==> kept[j] in Repr && kept[j] != all[i]
      ensures forall j :: 0 <= j < |gone| ==> gone[j] in Repr && gone[j] != all[i] && gone[j] !in nodes
      ensures forall j :: i < j < |all| ==> all[j] in Repr && all[j] != all[i]
    {
      assert forall j :: 0 <= j < |kept| ==> nodes[j] == kept[j];
      assert forall j :: i <= j < |all| ==> nodes[|kept| + (j - i)] == all[j];
    }

    /** The visit itself, before the books are brought up to date. */
    method VisitNext(alarm: Node, cb: Callback, ghost all: seq<Node>, ghost start: seq<Alarm>, ghost i: nat,
                     ghost kept: seq<Node>, ghost gone: seq<Node>)
      returns (ran: bool)
      requires Valid() && Turns(cb, nticks, all, start, i, kept, gone) && i < |all| && alarm == all[i]
      modifies `nodes, head`next, head`previous, Repr
      ensures Valid() && Visited(cb, nticks, all, start, i, kept, gone)
      ensures ran == IsDue(start[i], nticks) && alarm in Repr
      ensures if ran && Leaves(cb(start[i].id, nticks))
              then nodes == kept + all[i + 1..] && alarm !in nodes && alarm.Alone()
              else nodes == kept + all[i..]
    {
      ghost var v, w := Values(kept), Values(gone);
      CutOut(kept, all, i);
      OthersDiffer(cb, nticks, all, start, i, kept, gone);
      ran := Visit(alarm, cb, |kept|);
      assert Values(kept) == v;
      assert Values(gone) == w;
    }

    method Turn(alarm: Node, cb: Callback, ghost all: seq<Node>, ghost start: seq<Alarm>, ghost i: nat,
                ghost kept: seq<Node>, ghost gone: seq<Node>)
      returns (ran: bool, ghost kept': seq<Node>, ghost gone': seq<Node>)
      requires Valid() && Turns(cb, nticks, all, start, i, kept, gone) && i < |all| && alarm == all[i]
      modifies `nodes, head`next, head`previous, Repr
      ensures Valid() && Turns(cb, nticks, all, start, i + 1, kept', gone') && ran == IsDue(start[i], nticks)
      ensures alarm.id == start[i].id
      ensures At(head, nodes, |kept'|) == old(At(head, nodes, |kept| + 1))
    {
      CutOut(kept, all, i);
      ran := VisitNext(alarm, cb, all, start, i, kept, gone);
      if ran && Leaves(cb(start[i].id, nticks)) {
        kept', gone' := kept, gone + [alarm];
        TurnLeft(cb, nticks, all, start, i, kept, gone);
      } else {
        kept', gone' := kept + [alarm], gone;
        TurnKept(cb, nticks, all, start, i, kept, gone);
      }
    }

    /**
     A tick of the system clock. Every alarm on the list gets its turn, in order and once, although alarms
     leave the list under way; those that leave, `gone`, end up alone.
     */
    method Tick(cb: Callback) returns (called: seq<nat>, ghost gone: seq<Node>)
      requires Valid()
      modifies `nticks, `nodes, head`next, head`previous, Repr
      ensures Valid() && nticks == old(nticks) + 1
      ensures Values(nodes) == Ticked(old(Values(nodes)), nticks, cb)
      ensures Values(gone) == Dropped(old(Values(nodes)), nticks, cb)
      ensures called == Called(old(Values(nodes)), nticks)
      ensures forall n :: n in gone ==> n in old(nodes) && n !in nodes && n.Alone()
    {
      ghost var all, start, now := nodes, Values(nodes), nticks + 1;
      ghost var i: nat, kept: seq<Node> := 0, [];
      FirstTurn(cb, now);
      var alarm: Node := head.next;
      called, gone := [], [];
      nticks := nticks + 1;
      while alarm != head
        invariant Valid() && nticks == now
        invariant Turns(cb, now, all, start, i, kept, gone) && alarm == At(head, nodes, |kept|)
        invariant called == Called(start[..i], now)
        decreases |all| - i
      {
        NextTurn(cb, now, all, start, i, kept, gone);
        var next: Node := alarm.next;
        var ran;
        ran, kept, gone := Turn(alarm, cb, all, start, i, kept, gone);
        TickedUpTo(start, i, now, cb);
        if ran { called := called + [alarm.id]; }
        i := i + 1;
        alarm := next;
      }
      LastTurn(cb, now, all, start, i, kept, gone);
    }

    /** Sets an alarm's due time and puts it first on the list. */
    method Register(alarm: Node, delay: nat)
      requires Valid() && alarm != head && alarm !in nodes
      modifies `nodes, `Repr, head`next, head`previous, alarm, Repr
      ensures Valid() && nodes == [alarm] + old(nodes) && Repr == old(Repr) + {alarm}
      ensures Values(nodes) == [Registered(old(alarm.id), nticks, delay)] + old(Values(nodes))
    {
      ghost var ns, was := nodes, Values(nodes);
      Schedule(alarm, delay);
      assert Values(ns) == was;
      ghost var a := alarm.Value();
      Insert(alarm);
      PutFirst(alarm, ns, a, was);
    }

    method Schedule(alarm: Node, delay: nat)
      modifies alarm`time, alarm`born, alarm`delay, alarm`fired, alarm`periods
      ensures alarm.Value() == Registered(alarm.id, nticks, delay)
    {
      alarm.time := delay + nticks + 1;
      alarm.born, alarm.delay, alarm.fired, alarm.periods := nticks, delay, [], [];
    }

    lemma PutFirst(alarm: Node, ns: seq<Node>, a: Alarm, was: seq<Alarm>)
      requires nodes == [alarm] + ns && alarm.Value() == a && Values(ns) == was
      ensures Values(nodes) == [a] + was
    {
    }

    /** Registers an alarm; without a clock, or without an alarm, nothing happens. */
    method Start(alarm: Node?, delay: nat) returns (r: int)
      requires Valid() && (alarm != null ==> alarm != head && alarm !in nodes)
      modifies `nodes, `Repr, head`next, head`previous, alarm, Repr
      ensures Valid()
      ensures r == if rate == 0 then -ENOTSUP else if alarm == null then -EINVAL else 0
      ensures if r == 0
              then nodes == [alarm] + old(nodes) && Repr == old(Repr) + {alarm}
                   && Values(nodes) == [Registered(old(alarm.id), nticks, delay)] + old(Values(nodes))
              else nodes == old(nodes) && Repr == old(Repr) && Values(nodes) == old(Values(nodes))
    {
      if rate != 0 {
        if alarm != null {
          Register(alarm, delay);
          r := 0;
        } else {
          r := -EINVAL;
        }
      } else {
        r := -ENOTSUP;
      }
    }

    /** The node at a place of the list, if the list is that long. */
    method Find(k: nat) returns (alarm: Node?)
      requires Valid()
      ensures alarm == if k < |nodes| then nodes[k] else null
    {
      assert Linked(At(head, nodes, -1), At(head, nodes, 0));
      var i, node: Node := 0, head.next;
      while node != head && i < k
        invariant 0 <= i <= k && i <= |nodes| && node == At(head, nodes, i)
      {
        assert Linked(At(head, nodes, i), At(head, nodes, i + 1));
        node := node.next;
        i := i + 1;
      }
      alarm := if node != head then node else null;
    }

    /** A tick, the start of a new alarm, or the stop of one; `left` are the alarms that leave the list. */
    method Act(a: Action, cb: Callback) returns (ghost left: seq<Alarm>)
      requires Valid() && rate > 0
      modifies `nticks, `nodes, `Repr, head`next, head`previous, Repr
      ensures Valid() && fresh(Repr - old(Repr))
      ensures forall before :: Clock(cb, nticks, Values(nodes), before + left)
                               == Next(Clock(cb, old(nticks), old(Values(nodes)), before), a)
    {
      match a
      case Tick =>
        var called;
        ghost var gone;
        called, gone := Tick(cb);
        left := Values(gone);
      case Start(id, delay) =>
        var alarm := new Node();
        alarm.id := id;
        var r := Start(alarm, delay);
        left := [];
      case Stop(k) =>
        var alarm := Find(k);
        left := [];
        if alarm != null {
          left := [alarm.Value()];
          Stop(alarm, k);
        }
    }
  }

  /**
   A list of alarms through any sequence of ticks, starts and stops: it holds what the run of the values reaches, and
   no alarm on it has missed a due time or was ever called with a reply that stops it.
   */
  method RunFromStart(rate: nat, cb: Callback, acts: seq<Action>) returns (list: AlarmList, ghost gone: seq<Alarm>)
    requires rate > 0
    ensures list.Valid() && Clock(cb, list.nticks, Values(list.nodes), gone) == Reach(cb, 0, acts)
    ensures forall i :: 0 <= i < |list.nodes| ==>
              Waiting(list.nodes[i].Value(), list.nticks) && OnList(list.nodes[i].Value(), cb)
  {
    list := new AlarmList(rate);
    gone := [];
    assert acts[..0] == [];
    for k := 0 to |acts|
      invariant list.Valid() && list.rate == rate && fresh(list) && fresh(list.head) && fresh(list.Repr)
      invariant Clock(cb, list.nticks, Values(list.nodes), gone) == Reach(cb, 0, acts[..k])
    {
      ghost var left := list.Act(acts[k], cb);
      RunOneMore(Next, Clock(cb, 0, [], []), acts[..k], acts[k]);
      assert acts[..k + 1] == acts[..k] + [acts[k]];
      gone := gone + left;
    }
    assert acts[..|acts|] == acts;
    RunsOnTime(cb, 0, acts);
    RepliesDecide(cb, 0, acts);
    assert forall i :: 0 <= i < |list.nodes| ==> Values(list.nodes)[i] == list.nodes[i].Value();
  }
}
