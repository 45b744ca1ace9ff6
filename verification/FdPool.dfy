/**
 The pool of file descriptors as a value: what open, close and ioctl do to it, and what holds over every run
 of them. Drivers are not part of it; what a driver's routine returns is an argument.
 */
module FdPool {
  import opened Runs

  const MAX_FD: nat := 32
  const EACCES: int := 13
  const ENODEV: int := 19
  const EMFILE: int := 24
  const EBADFD: int := 81

  /** Open flags a caller can set; the two bits above them are the pool's own. */
  const USER_FLAGS: nat := 0x4000_0000

  /** What a name stands for, and what a descriptor refers to: nothing if it is free. */
  datatype Dev = NoDev | Device(id: nat) | FileSystem(id: nat)

  datatype Fd = Fd(dev: Dev, flags: nat, isDev: bool, excl: bool)

  datatype Pool = Pool(list: seq<Fd>, maxFd: int, errno: int)

  datatype Request = Exclusive | NotExclusive | Other

  const FREE := Fd(NoDev, 0, false, false)

  /** Device 0 is the null device that the first three descriptors start on. */
  function Init(): Pool
  {
    var std := Fd(Device(0), 0, false, false);
    Pool([std, std, std] + seq(MAX_FD - 3, _ => FREE), -1, 0)
  }

  // ----------------------------------------------------------------------------------------------
  // Operations
  // ----------------------------------------------------------------------------------------------

  /** The lowest free descriptor from `i` on; -1 if there is none. */
  function FirstFree(list: seq<Fd>, i: nat): (k: int)
    requires i <= |list|
    ensures k == -1 || i <= k < |list|
    ensures k == -1 ==> forall j :: i <= j < |list| ==> !list[j].dev.NoDev?
    ensures k >= 0 ==> list[k].dev.NoDev? && forall j :: i <= j < k ==> !list[j].dev.NoDev?
    decreases |list| - i
  {
    if i == |list| then -1 else if list[i].dev.NoDev? then i else FirstFree(list, i + 1)
  }

  /** Another descriptor among the first `n` holds the device of descriptor `k` for itself. */
  predicate Held(list: seq<Fd>, n: int, k: nat)
    requires n <= |list| && k < |list|
  {
    exists i :: 0 <= i < n && i != k && list[i].dev == list[k].dev && list[i].excl
  }

  /** Another descriptor among the first `n` refers to the device of descriptor `k`. */
  predicate Shared(list: seq<Fd>, n: int, k: nat)
    requires n <= |list| && k < |list|
  {
    exists i :: 0 <= i < n && i != k && list[i].dev == list[k].dev
  }

  predicate Sized(p: Pool) { |p.list| == MAX_FD && p.maxFd < MAX_FD }

  /** The first three descriptors are never given back. */
  function Released(p: Pool, k: int): Pool
    requires k < |p.list|
  {
    if k > 2 then p.(list := p.list[k := FREE]) else p
  }

  /** The descriptor `open` sets up before it looks for a lock or asks the driver. */
  function Claimed(p: Pool, k: nat, found: Dev, flags: nat): Pool
    requires k < |p.list|
  {
    p.(list := p.list[k := Fd(found, flags % USER_FLAGS, found.Device?, false)],
       maxFd := if k > p.maxFd then k else p.maxFd)
  }

  /** `found` is what the name stands for, `ret` what the driver's open routine returns: 0 if it has none. */
  function Opened(p: Pool, found: Dev, flags: nat, ret: int): (Pool, int)
    requires Sized(p)
  {
    var k := FirstFree(p.list, 0);
    if found.NoDev? then (p.(errno := ENODEV), -1)
    else if k < 0 then (p.(errno := EMFILE), -1)
    else
      var q := Claimed(p, k, found, flags);
      var status := if found.Device? && Held(q.list, q.maxFd + 1, k) then -EACCES else ret;
      if status < 0 then (Released(q, k).(errno := -status), -1) else (q, k)
  }

  function Closed(p: Pool, k: int, ret: int): (Pool, int)
    requires k < |p.list|
  {
    if k < 0 then (p.(errno := EBADFD), -1)
    else if ret < 0 then (Released(p, k).(errno := -ret), -1)
    else (Released(p, k), 0)
  }

  function Locked(p: Pool, k: nat): (Pool, int)
    requires Sized(p) && k < |p.list|
  {
    if Shared(p.list, p.maxFd, k) then (p, -EACCES) else (p.(list := p.list[k := p.list[k].(excl := true)]), 0)
  }

  function Unlocked(p: Pool, k: nat): Pool
    requires k < |p.list|
  {
    p.(list := p.list[k := p.list[k].(excl := false)])
  }

  /** `ret` is what the driver's ioctl routine returns, -ENOTTY if it has none. */
  function Controlled(p: Pool, k: int, req: Request, ret: int): (Pool, int)
    requires Sized(p) && k < |p.list|
  {
    var (q, rc) :=
      if k < 0 then (p, -EBADFD)
      else if p.list[k].isDev && req.Exclusive? then Locked(p, k)
      else if p.list[k].isDev && req.NotExclusive? then (Unlocked(p, k), 0)
      else (p, ret);
    (if rc < 0 then q.(errno := -rc) else q, rc)
  }

  /** Points one of the first three descriptors at another device or file. */
  function Redirected(p: Pool, k: nat, found: Dev, flags: nat, ret: int): Pool
    requires Sized(p) && k < |p.list|
  {
    var (q, old') := Opened(p, found, flags, ret);
    if 0 <= old' < |q.list| then Released(q.(list := q.list[k := q.list[old']]), old') else q
  }

  // ----------------------------------------------------------------------------------------------
  // What every operation keeps
  // ----------------------------------------------------------------------------------------------

  ghost predicate FdOk(f: Fd, i: int, maxFd: int)
  {
    && (i <= 2 ==> !f.dev.NoDev?)
    && (f.dev.NoDev? ==> f == FREE)
    && (!f.dev.NoDev? && i > 2 ==> i <= maxFd)
    && (f.isDev ==> f.dev.Device? && i <= maxFd)
    && (f.excl ==> f.isDev)
    && f.flags < USER_FLAGS
  }

  /**
   The first three descriptors are allocated; free ones are blank; those marked as devices lie below the high
   water mark; only devices are held exclusively.
   */
  ghost predicate Inv(p: Pool)
  {
    && Sized(p) && (p.maxFd == -1 || p.maxFd >= 3)
    && forall i :: 0 <= i < MAX_FD ==> FdOk(p.list[i], i, p.maxFd)
  }

  lemma InitInv()
    ensures Inv(Init())
  {
  }

  lemma OpenKeeps(p: Pool, found: Dev, flags: nat, ret: int)
    requires Inv(p)
    ensures Inv(Opened(p, found, flags, ret).0)
    ensures var (q, r) := Opened(p, found, flags, ret);
            r >= 0 ==> 3 <= r < MAX_FD && q.list[r].dev == found && r <= q.maxFd
  {
  }

  lemma CloseKeeps(p: Pool, k: int, ret: int)
    requires Inv(p) && k < MAX_FD
    ensures Inv(Closed(p, k, ret).0)
  {
  }

  lemma ControlKeeps(p: Pool, k: int, req: Request, ret: int)
    requires Inv(p) && k < MAX_FD
    ensures Inv(Controlled(p, k, req, ret).0)
  {
  }

  lemma RedirectKeeps(p: Pool, k: nat, found: Dev, flags: nat, ret: int)
    requires Inv(p) && k <= 2
    ensures Inv(Redirected(p, k, found, flags, ret))
  {
    OpenKeeps(p, found, flags, ret);
  }

  // ----------------------------------------------------------------------------------------------
  // What open promises
  // ----------------------------------------------------------------------------------------------

  /** Some descriptor holds the device for itself. */
  ghost predicate Exclusively(p: Pool, d: Dev)
  {
    exists i :: 0 <= i < |p.list| && p.list[i].dev == d && p.list[i].excl
  }

  ghost predicate Full(p: Pool)
  {
    forall i :: 0 <= i < |p.list| ==> !p.list[i].dev.NoDev?
  }

  /** Searching up to the high water mark finds a holder wherever it is in the pool. */
  lemma HeldAnywhere(p: Pool, k: nat, found: Dev, flags: nat)
    requires Inv(p) && k < MAX_FD && p.list[k].dev.NoDev? && found.Device?
    ensures var q := Claimed(p, k, found, flags); Held(q.list, q.maxFd + 1, k) <==> Exclusively(p, found)
  {
    var q := Claimed(p, k, found, flags);
    if Held(q.list, q.maxFd + 1, k) {
      var i :| 0 <= i < q.maxFd + 1 && i != k && q.list[i].dev == q.list[k].dev && q.list[i].excl;
      assert p.list[i] == q.list[i];
    }
    if Exclusively(p, found) {
      var i :| 0 <= i < |p.list| && p.list[i].dev == found && p.list[i].excl;
      assert FdOk(p.list[i], i, p.maxFd);
      assert q.list[i] == p.list[i];
    }
  }

  /**
   When open succeeds, and the error it reports when it does not. A failed open leaves every descriptor as it
   was; a successful one takes the lowest free descriptor and touches no other.
   */
  lemma OpenOutcome(p: Pool, found: Dev, flags: nat, ret: int)
    requires Inv(p)
    ensures var (q, r) := Opened(p, found, flags, ret);
            && (r >= 0 <==> !found.NoDev? && !Full(p) && !(found.Device? && Exclusively(p, found)) && ret >= 0)
            && (r >= 0 ==>
                  && r < MAX_FD && p.list[r].dev.NoDev? && (forall j :: 0 <= j < r ==> !p.list[j].dev.NoDev?)
                  && q.list == p.list[r := Fd(found, flags % USER_FLAGS, found.Device?, false)]
                  && q.errno == p.errno)
            && (r < 0 ==>
                  && r == -1 && q.list == p.list
                  && q.errno == (if found.NoDev? then ENODEV else if Full(p) then EMFILE
                                 else if found.Device? && Exclusively(p, found) then EACCES else -ret))
  {
    var k := FirstFree(p.list, 0);
    if k >= 0 {
      assert FdOk(p.list[k], k, p.maxFd);
      if found.Device? { HeldAnywhere(p, k, found, flags); }
      assert p.list[k := Claimed(p, k, found, flags).list[k]][k := FREE] == p.list;
    }
  }

  // ----------------------------------------------------------------------------------------------
  // Exclusive access over runs
  // ----------------------------------------------------------------------------------------------

  datatype Action =
    | Open(found: Dev, flags: nat, ret: int)
    | Close(k: int, ret: int)
    | Control(k: int, req: Request, ret: int)
    | Redirect(std: nat, found: Dev, flags: nat, ret: int)

  /** A call the system does not allow, on a descriptor that is out of range or free, changes nothing here. */
  function Next(p: Pool, a: Action): Pool
  {
    if !Sized(p) then p
    else
      match a
      case Open(found, flags, ret) => Opened(p, found, flags, ret).0
      case Close(k, ret) => if k < MAX_FD then Closed(p, k, ret).0 else p
      case Control(k, req, ret) => if k < MAX_FD then Controlled(p, k, req, ret).0 else p
      case Redirect(k, found, flags, ret) => if k <= 2 then Redirected(p, k, found, flags, ret) else p
  }

  lemma NextKeeps(p: Pool, a: Action)
    requires Inv(p)
    ensures Inv(Next(p, a))
  {
    match a
    case Open(found, flags, ret) => OpenKeeps(p, found, flags, ret);
    case Close(k, ret) => if k < MAX_FD { CloseKeeps(p, k, ret); }
    case Control(k, req, ret) => if k < MAX_FD { ControlKeeps(p, k, req, ret); }
    case Redirect(k, found, flags, ret) => if k <= 2 { RedirectKeeps(p, k, found, flags, ret); }
  }

  lemma {:induction false} RunKeeps(p: Pool, acts: seq<Action>)
    requires Inv(p)
    ensures Inv(Run(Next, p, acts))
  {
    if acts != [] {
      RunKeeps(p, acts[..|acts| - 1]);
      NextKeeps(Run(Next, p, acts[..|acts| - 1]), acts[|acts| - 1]);
    }
  }

  /** How many descriptors refer to a device. */
  function Count(list: seq<Fd>, d: Dev): nat
  {
    if list == [] then 0 else (if list[0].dev == d then 1 else 0) + Count(list[1..], d)
  }

  lemma {:induction false} CountSet(list: seq<Fd>, k: nat, f: Fd, d: Dev)
    requires k < |list|
    ensures Count(list[k := f], d)
            == Count(list, d) - (if list[k].dev == d then 1 else 0) + (if f.dev == d then 1 else 0)
  {
    if k > 0 {
      assert list[k := f][1..] == list[1..][k - 1 := f];
      CountSet(list[1..], k - 1, f, d);
    } else {
      assert list[0 := f][1..] == list[1..];
    }
  }

  lemma OpenCount(p: Pool, found: Dev, flags: nat, ret: int, d: Dev)
    requires Inv(p) && Exclusively(p, d)
    ensures var (q, r) := Opened(p, found, flags, ret);
            Count(q.list, d) <= Count(p.list, d) && (r >= 0 ==> q.list[r].dev != d)
  {
    OpenOutcome(p, found, flags, ret);
    var i :| 0 <= i < |p.list| && p.list[i].dev == d && p.list[i].excl;
    assert FdOk(p.list[i], i, p.maxFd);
    var (q, r) := Opened(p, found, flags, ret);
    if r >= 0 { CountSet(p.list, r, q.list[r], d); }
  }

  lemma ReleaseCount(p: Pool, k: int, d: Dev)
    requires k < |p.list| && d.Device?
    ensures Count(Released(p, k).list, d) <= Count(p.list, d)
  {
    if k > 2 { CountSet(p.list, k, FREE, d); }
  }

  lemma ControlCount(p: Pool, k: int, req: Request, ret: int, d: Dev)
    requires Sized(p) && k < |p.list|
    ensures Count(Controlled(p, k, req, ret).0.list, d) == Count(p.list, d)
  {
    if k >= 0 {
      CountSet(p.list, k, p.list[k].(excl := true), d);
      CountSet(p.list, k, p.list[k].(excl := false), d);
    }
  }

  lemma NextCount(p: Pool, a: Action, d: Dev)
    requires Inv(p) && Exclusively(p, d) && d.Device?
    ensures Count(Next(p, a).list, d) <= Count(p.list, d)
  {
    match a
    case Open(found, flags, ret) => OpenCount(p, found, flags, ret, d);
    case Close(k, ret) => if k < MAX_FD { ReleaseCount(p, k, d); }
    case Control(k, req, ret) => if k < MAX_FD { ControlCount(p, k, req, ret, d); }
    case Redirect(k, found, flags, ret) =>
      if k <= 2 {
        OpenCount(p, found, flags, ret, d);
        OpenKeeps(p, found, flags, ret);
        var (q, r) := Opened(p, found, flags, ret);
        if r >= 0 {
          CountSet(q.list, k, q.list[r], d);
          ReleaseCount(q.(list := q.list[k := q.list[r]]), r, d);
        }
      }
  }

  /** Throughout a run some descriptor holds the device for itself, not always the same one. */
  ghost predicate HeldThroughout(p: Pool, acts: seq<Action>, d: Dev)
  {
    forall n :: 0 <= n <= |acts| ==> Exclusively(Run(Next, p, acts[..n]), d)
  }

  /** While a device is held exclusively the number of descriptors on it never grows, and no open of it succeeds. */
  lemma {:induction false} ExclusiveHeld(p: Pool, acts: seq<Action>, d: Dev, flags: nat, ret: int)
    requires Inv(p) && d.Device? && HeldThroughout(p, acts, d)
    ensures Count(Run(Next, p, acts).list, d) <= Count(p.list, d)
    ensures Inv(Run(Next, p, acts)) && Opened(Run(Next, p, acts), d, flags, ret).1 == -1
  {
    RunKeeps(p, acts);
    assert acts[..|acts|] == acts;
    OpenOutcome(Run(Next, p, acts), d, flags, ret);
    if acts != [] {
      var front := acts[..|acts| - 1];
      forall n | 0 <= n <= |front| ensures Exclusively(Run(Next, p, front[..n]), d) { assert front[..n] == acts[..n]; }
      ExclusiveHeld(p, front, d, flags, ret);
      assert front[..|front|] == front;
      NextCount(Run(Next, p, front), acts[|acts| - 1], d);
    }
  }

  // ----------------------------------------------------------------------------------------------
  // The grant
  // ----------------------------------------------------------------------------------------------

  /** No other descriptor refers to the device of descriptor `k`. */
  ghost predicate SoleOwner(p: Pool, k: nat)
    requires k < |p.list|
  {
    forall i :: 0 <= i < |p.list| && i != k ==> p.list[i].dev != p.list[k].dev
  }

  /**
   A lock is granted exactly when no other descriptor below the high water mark refers to the device. The
   descriptor at the mark itself is not looked at: a granted lock means sole ownership exactly when that one
   is the owner's or refers to something else.
   */
  lemma LockGrant(p: Pool, k: nat)
    requires Inv(p) && k < MAX_FD && p.list[k].isDev
    ensures var (q, rc) := Locked(p, k);
            && (rc == 0 <==> forall i :: 0 <= i < p.maxFd && i != k ==> p.list[i].dev != p.list[k].dev)
            && (rc == 0 ==> Exclusively(q, p.list[k].dev) && q.list == p.list[k := q.list[k]])
            && (rc != 0 ==> rc == -EACCES && q == p)
            && 3 <= p.maxFd
            && (rc == 0 ==> (SoleOwner(p, k) <==> p.maxFd == k || p.list[p.maxFd].dev != p.list[k].dev))
  {
    assert FdOk(p.list[k], k, p.maxFd);
    var (q, rc) := Locked(p, k);
    if rc == 0 {
      assert q.list[k].dev == p.list[k].dev && q.list[k].excl;
      if p.maxFd == k || p.list[p.maxFd].dev != p.list[k].dev {
        forall i | 0 <= i < |p.list| && i != k ensures p.list[i].dev != p.list[k].dev {
          assert FdOk(p.list[i], i, p.maxFd);
        }
      }
    }
  }

  /** Two descriptors on one device, and the lower one is granted exclusive access all the same. */
  lemma LockMissesTheLast(d: nat)
    requires d > 0
    ensures var p := Next(Next(Init(), Open(Device(d), 0, 0)), Open(Device(d), 0, 0));
            var (q, rc) := Controlled(p, 3, Exclusive, 0);
            rc == 0 && q.list[3].excl && q.list[3].dev == q.list[4].dev == Device(d)
  {
    InitInv();
    var p0 := Init();
    var p1 := Next(p0, Open(Device(d), 0, 0));
    var p2 := Next(p1, Open(Device(d), 0, 0));
    OpenOutcome(p0, Device(d), 0, 0);
    assert p0.list[3].dev.NoDev?;
    OpenKeeps(p0, Device(d), 0, 0);
    assert p1.list == p0.list[3 := Fd(Device(d), 0, true, false)];
    OpenOutcome(p1, Device(d), 0, 0);
    assert p1.list[4].dev.NoDev?;
    OpenKeeps(p1, Device(d), 0, 0);
    assert p2.list == p1.list[4 := Fd(Device(d), 0, true, false)];
    LockGrant(p2, 3);
  }

  /** The calls that can take a lock from descriptor `k`, and the one that can give it one. */
  predicate GivesUp(a: Action, k: nat)
  {
    || (a.Close? && a.k == k && k > 2)
    || (a.Control? && a.k == k && a.req.NotExclusive?)
    || (a.Redirect? && a.std == k)
  }

  predicate AsksFor(a: Action, k: nat)
  {
    a.Control? && a.k == k && a.req.Exclusive?
  }

  lemma LockKept(p: Pool, a: Action, k: nat)
    requires Inv(p) && k < MAX_FD && p.list[k].excl && !GivesUp(a, k)
    ensures Next(p, a).list[k] == p.list[k]
  {
    assert FdOk(p.list[k], k, p.maxFd);
    match a
    case Open(found, flags, ret) => OpenOutcome(p, found, flags, ret);
    case Redirect(std, found, flags, ret) => OpenOutcome(p, found, flags, ret);
    case Close(_, _) =>
    case Control(_, _, _) =>
  }

  lemma LockNotTaken(p: Pool, a: Action, k: nat)
    requires Inv(p) && k < MAX_FD && !p.list[k].excl && Next(p, a).list[k].excl
    ensures AsksFor(a, k) && p.list[k].isDev && Locked(p, k).1 == 0
  {
    match a
    case Open(found, flags, ret) => OpenOutcome(p, found, flags, ret);
    case Redirect(std, found, flags, ret) => OpenOutcome(p, found, flags, ret);
    case Close(_, _) =>
    case Control(_, _, _) =>
  }

  /**
   From grant to release: whatever other calls are made, requests the driver handles among them, the holder keeps
   its lock and its device, the number of descriptors on the device never grows, and every open of it fails.
   */
  lemma {:induction false} HolderKeepsOut(p: Pool, acts: seq<Action>, k: nat, flags: nat, ret: int)
    requires Inv(p) && k < MAX_FD && p.list[k].excl
    requires forall n :: 0 <= n < |acts| ==> !GivesUp(acts[n], k)
    ensures var q, d := Run(Next, p, acts), p.list[k].dev;
            && Inv(q) && q.list[k] == p.list[k] && Count(q.list, d) <= Count(p.list, d)
            && Opened(q, d, flags, ret).1 == -1
  {
    RunKeeps(p, acts);
    if acts != [] {
      var front := acts[..|acts| - 1];
      HolderKeepsOut(p, front, k, flags, ret);
      var q := Run(Next, p, front);
      LockKept(q, acts[|acts| - 1], k);
      assert FdOk(q.list[k], k, q.maxFd);
      NextCount(q, acts[|acts| - 1], q.list[k].dev);
    }
    assert FdOk(p.list[k], k, p.maxFd);
    assert Run(Next, p, acts).list[k].dev == p.list[k].dev;
    OpenOutcome(Run(Next, p, acts), p.list[k].dev, flags, ret);
  }

  /** A descriptor holds a lock after a run only if it did before or asked for it in the run, and was granted it. */
  lemma {:induction false} LocksOnlyOnRequest(p: Pool, acts: seq<Action>, k: nat)
    requires Inv(p) && k < MAX_FD && !p.list[k].excl
    ensures Inv(Run(Next, p, acts))
    ensures Run(Next, p, acts).list[k].excl ==>
              exists n :: 0 <= n < |acts| && AsksFor(acts[n], k) && Sized(Run(Next, p, acts[..n]))
                          && Locked(Run(Next, p, acts[..n]), k).1 == 0
  {
    RunKeeps(p, acts);
    if acts != [] {
      var m := |acts| - 1;
      var front := acts[..m];
      RunKeeps(p, front);
      if !Run(Next, p, front).list[k].excl {
        if Run(Next, p, acts).list[k].excl { LockNotTaken(Run(Next, p, front), acts[m], k); }
      } else {
        LocksOnlyOnRequest(p, front, k);
        var n :| 0 <= n < |front| && AsksFor(front[n], k) && Sized(Run(Next, p, front[..n]))
                 && Locked(Run(Next, p, front[..n]), k).1 == 0;
        assert acts[n] == front[n] && acts[..n] == front[..n];
      }
    }
  }

  /** Giving up the only lock on a device lets it be opened again, as far as descriptors last. */
  lemma UnlockReleases(p: Pool, k: nat, ret: int, flags: nat)
    requires Inv(p) && k < MAX_FD && p.list[k].excl && !Full(p)
    requires forall i :: 0 <= i < MAX_FD && i != k && p.list[i].dev == p.list[k].dev ==> !p.list[i].excl
    ensures var q := Controlled(p, k, NotExclusive, ret).0;
            !Exclusively(q, p.list[k].dev) && Opened(q, p.list[k].dev, flags, 0).1 >= 0
  {
    var q := Controlled(p, k, NotExclusive, ret).0;
    assert FdOk(p.list[k], k, p.maxFd);
    ControlKeeps(p, k, NotExclusive, ret);
    var f :| 0 <= f < |p.list| && p.list[f].dev.NoDev?;
    assert q.list[f].dev.NoDev?;
    OpenOutcome(q, p.list[k].dev, flags, 0);
  }

  /** Closing one of the first three descriptors gives up nothing, a lock it holds included. */
  lemma CloseKeepsStandardLocks(p: Pool, k: nat, ret: int)
    requires Inv(p) && k <= 2 && p.list[k].excl
    ensures Exclusively(Closed(p, k, ret).0, p.list[k].dev)
    ensures Closed(p, k, ret).0.list == p.list
  {
    assert Closed(p, k, ret).0.list[k].excl;
  }

  /**
   The standard output is redirected to a device, locked and closed, and still the device cannot be opened.
   */
  lemma StandardLockOutlivesClose(d: nat, flags: nat, ret: int)
    requires d > 0
    ensures var acts := [Redirect(1, Device(d), 0, 0), Control(1, Exclusive, 0), Close(1, 0)];
            var p := Run(Next, Init(), acts);
            Sized(p) && p.list[1] == Fd(Device(d), 0, true, true) && Opened(p, Device(d), flags, ret).1 == -1
  {
    var a1, a2, a3 := Redirect(1, Device(d), 0, 0), Control(1, Exclusive, 0), Close(1, 0);
    var p0 := Init();
    var p1 := Next(p0, a1);
    var p2 := Next(p1, a2);
    InitInv();
    OpenOutcome(p0, Device(d), 0, 0);
    assert p0.list[3].dev.NoDev?;
    NextKeeps(p0, a1);
    assert p1.list[1] == Fd(Device(d), 0, true, false) && p1.maxFd == 3;
    LockGrant(p1, 1);
    NextKeeps(p1, a2);
    assert p2.list[1].excl;
    CloseKeepsStandardLocks(p2, 1, 0);
    NextKeeps(p2, a3);
    RunOneMore(Next, p0, [], a1);
    RunOneMore(Next, p0, [a1], a2);
    RunOneMore(Next, p0, [a1, a2], a3);
    assert [] + [a1] == [a1] && [a1] + [a2] == [a1, a2] && [a1, a2] + [a3] == [a1, a2, a3];
    OpenOutcome(Next(p2, a3), Device(d), flags, ret);
  }

  /** Closing any other gives up its lock; if it held the only one, the device can be opened again. */
  lemma CloseGivesUpLock(p: Pool, k: nat, ret: int, flags: nat)
    requires Inv(p) && 2 < k < MAX_FD && p.list[k].excl
    requires forall i :: 0 <= i < MAX_FD && i != k && p.list[i].dev == p.list[k].dev ==> !p.list[i].excl
    ensures var q := Closed(p, k, ret).0; !Exclusively(q, p.list[k].dev) && Opened(q, p.list[k].dev, flags, 0).1 >= 0
  {
    var q := Closed(p, k, ret).0;
    assert FdOk(p.list[k], k, p.maxFd);
    CloseKeeps(p, k, ret);
    assert q.list[k].dev.NoDev?;
    OpenOutcome(q, p.list[k].dev, flags, 0);
  }

  /** A device locked by a closed descriptor stays locked exactly when that is a standard one or another has a lock. */
  lemma CloseLeavesLockIff(p: Pool, k: nat, ret: int)
    requires Inv(p) && k < MAX_FD && p.list[k].excl
    ensures Exclusively(Closed(p, k, ret).0, p.list[k].dev)
            <==> k <= 2 || exists i :: 0 <= i < MAX_FD && i != k && p.list[i].dev == p.list[k].dev && p.list[i].excl
  {
    var q := Closed(p, k, ret).0;
    assert FdOk(p.list[k], k, p.maxFd);
    if k <= 2 {
      CloseKeepsStandardLocks(p, k, ret);
    } else {
      CloseKeeps(p, k, ret);
      assert q.list[k].dev.NoDev? && forall i :: 0 <= i < MAX_FD && i != k ==> q.list[i] == p.list[i];
      if i :| 0 <= i < MAX_FD && i != k && p.list[i].dev == p.list[k].dev && p.list[i].excl {
        assert q.list[i].excl;
      }
    }
  }
}
