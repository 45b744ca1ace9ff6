/** What single calls on descriptors come to, and what one call undoes of another. */
module FdCalls {
  import opened FdPool
  import opened Runs

  /**
   Close blanks just the descriptor it is given, unless that is one of the first three, and whatever the driver says; a
   negative descriptor, and a driver that fails, are reported.
   */
  lemma CloseOutcome(p: Pool, k: int, ret: int)
    requires Inv(p) && k < MAX_FD
    ensures var (q, r) := Closed(p, k, ret);
            && |q.list| == MAX_FD && q.maxFd == p.maxFd
            && (forall i :: 0 <= i < MAX_FD ==>
                  q.list[i] == if i == k > 2 then Fd(NoDev, 0, false, false) else p.list[i])
            && (r == 0 <==> k >= 0 && ret >= 0) && (r != 0 ==> r == -1)
            && q.errno == (if k < 0 then EBADFD else if ret < 0 then -ret else p.errno)
  {
  }

  /** In every state a run reaches, closing a descriptor makes room: an open of anything that is not locked succeeds. */
  lemma CloseMakesRoom(acts: seq<Action>, k: nat, ret: int, found: Dev, flags: nat)
    requires 2 < k < MAX_FD && !found.NoDev?
    ensures var p := Run(Next, Init(), acts + [Close(k, ret)]);
            Inv(p) && (!Exclusively(p, found) ==> 3 <= Opened(p, found, flags, 0).1 <= k)
  {
    var was, p := Run(Next, Init(), acts), Run(Next, Init(), acts + [Close(k, ret)]);
    InitInv();
    RunKeeps(Init(), acts);
    RunKeeps(Init(), acts + [Close(k, ret)]);
    RunOneMore(Next, Init(), acts, Close(k, ret));
    CloseOutcome(was, k, ret);
    assert p.list[k].dev.NoDev?;
    OpenOutcome(p, found, flags, 0);
    OpenKeeps(p, found, flags, 0);
  }

  /** Closing what was opened leaves every descriptor as it was. */
  lemma CloseUndoesOpen(p: Pool, found: Dev, flags: nat, ret: int, ret': int)
    requires Inv(p) && Opened(p, found, flags, ret).1 >= 0
    ensures var (q, r) := Opened(p, found, flags, ret);
            2 < r < MAX_FD && Closed(q, r, ret').0.list == p.list
  {
    var (q, r) := Opened(p, found, flags, ret);
    OpenOutcome(p, found, flags, ret);
    OpenKeeps(p, found, flags, ret);
    CloseOutcome(q, r, ret');
    assert FdOk(p.list[r], r, p.maxFd);
  }

  /**
   A redirection that can open its target leaves the standard descriptor as an open would have set it up, and no other
   descriptor taken; one that cannot leaves everything as it was, but for the error number.
   */
  lemma RedirectOutcome(p: Pool, k: nat, found: Dev, flags: nat, ret: int)
    requires Inv(p) && k <= 2
    ensures var opens := !found.NoDev? && !Full(p) && !(found.Device? && Exclusively(p, found)) && ret >= 0;
            Redirected(p, k, found, flags, ret).list
            == if opens then p.list[k := Fd(found, flags % USER_FLAGS, found.Device?, false)] else p.list
  {
    OpenOutcome(p, found, flags, ret);
    OpenKeeps(p, found, flags, ret);
    var (q, r) := Opened(p, found, flags, ret);
    if r >= 0 {
      assert FdOk(p.list[r], r, p.maxFd);
      var f := Fd(found, flags % USER_FLAGS, found.Device?, false);
      assert p.list[r := f][k := f][r := FREE] == p.list[k := f];
    }
  }

  /**
   A request that is not about exclusive access, or not for a device, changes no descriptor and returns what the driver
   returns; giving a lock up always succeeds and changes that descriptor alone; every error is also in the error number.
   */
  lemma ControlOutcome(p: Pool, k: int, req: Request, ret: int)
    requires Inv(p) && k < MAX_FD
    ensures var (q, rc) := Controlled(p, k, req, ret);
            && (k < 0 ==> rc == -EBADFD)
            && (k < 0 || req.Other? || !p.list[k].isDev ==> q.list == p.list && (k >= 0 ==> rc == ret))
            && (k >= 0 && req.NotExclusive? && p.list[k].isDev ==>
                  && rc == 0 && q.list == p.list[k := q.list[k]]
                  && q.list[k] == Fd(p.list[k].dev, p.list[k].flags, true, false))
            && q.errno == (if rc < 0 then -rc else p.errno) && q.maxFd == p.maxFd
  {
    if k >= 0 && p.list[k].isDev && req.Exclusive? { LockGrant(p, k); }
  }

  /** The high water mark never falls, and is raised no further than the descriptor an open takes. */
  lemma MarkRises(p: Pool, a: Action)
    requires Inv(p)
    ensures var q := Next(p, a);
            && p.maxFd <= q.maxFd
            && (q.maxFd > p.maxFd ==>
                  (a.Open? || a.Redirect?) && q.maxFd < MAX_FD && p.list[q.maxFd].dev.NoDev?
                  && forall i :: 0 <= i < q.maxFd ==> !p.list[i].dev.NoDev?)
  {
    if a.Control? && 0 <= a.k < MAX_FD && p.list[a.k].isDev && a.req.Exclusive? { LockGrant(p, a.k); }
  }
}
