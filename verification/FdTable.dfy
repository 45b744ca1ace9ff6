/**
 The descriptor table as the program keeps it: an array with a high water mark, searched by loops and changed
 in place. Each routine is tied to what the pool of `FdPool` does.
 */
module FdTable {
  import opened FdPool

  class Table {
    const fds: array<Fd>
    var maxFd: int
    var errno: int

    ghost function Value(): Pool
      reads this, fds
    {
      Pool(fds[..], maxFd, errno)
    }

    ghost predicate Valid()
      reads this, fds
    {
      Inv(Value())
    }

    constructor ()
      ensures Valid() && Value() == Init() && fresh(fds)
    {
      fds := new Fd[MAX_FD](i => if i < 3 then Fd(Device(0), 0, false, false) else FREE);
      maxFd, errno := -1, 0;
      new;
      assert fds[..] == Init().list;
      InitInv();
    }

    /** Claims the lowest free descriptor. */
    method GetFd(dev: Dev) returns (rc: int)
      requires fds.Length == MAX_FD && maxFd < MAX_FD
      modifies this`maxFd, fds
      ensures var k := FirstFree(old(fds[..]), 0);
              if k < 0 then rc == -EMFILE && Value() == old(Value())
              else && rc == k && fds[..] == old(fds[..])[k := old(fds[k]).(dev := dev)]
                   && maxFd == if k > old(maxFd) then k else old(maxFd)
    {
      rc := -EMFILE;
      var i := 0;
      while i < MAX_FD
        invariant 0 <= i <= MAX_FD && rc == -EMFILE && Value() == old(Value())
        invariant FirstFree(fds[..], 0) == FirstFree(fds[..], i)
      {
        if fds[i].dev.NoDev? {
          fds[i] := fds[i].(dev := dev);
          if i > maxFd { maxFd := i; }
          rc := i;
          break;
        }
        i := i + 1;
      }
    }

    method ReleaseFd(k: int)
      requires k < fds.Length
      modifies fds
      ensures Value() == Released(old(Value()), k)
    {
      if k > 2 { fds[k] := Fd(NoDev, 0, false, false); }
    }

    /**
     Marks a descriptor as a device's and looks for a lock on the device. The loop's comparison is unsigned: it
     would not end with a high water mark of -1, and claiming the descriptor has raised it by now.
     */
    method FileLocked(k: nat) returns (rc: int)
      requires k < fds.Length && 0 <= maxFd < fds.Length
      modifies fds
      ensures fds[..] == old(fds[..])[k := old(fds[k]).(isDev := true)]
      ensures rc == if Held(fds[..], maxFd + 1, k) then -EACCES else 0
    {
      fds[k] := fds[k].(isDev := true);
      var i := 0;
      while i <= maxFd
        invariant 0 <= i <= maxFd + 1
        invariant fds[..] == old(fds[..])[k := old(fds[k]).(isDev := true)]
        invariant forall j :: 0 <= j < i && j != k ==> !(fds[j].dev == fds[k].dev && fds[j].excl)
      {
        if fds[i].dev == fds[k].dev && fds[i].excl && i != k {
          assert fds[..][i] == fds[i];
          return -EACCES;
        }
        i := i + 1;
      }
      return 0;
    }

    method FdLock(k: nat) returns (rc: int)
      requires fds.Length == MAX_FD && k < fds.Length && maxFd < fds.Length
      modifies fds
      ensures (Value(), rc) == Locked(old(Value()), k)
    {
      var i := 0;
      while i < maxFd
        invariant 0 <= i && (i <= maxFd || i == 0) && Value() == old(Value())
        invariant forall j :: 0 <= j < i && j != k ==> fds[j].dev != fds[k].dev
      {
        if i != k && fds[i].dev == fds[k].dev {
          assert fds[..][i] == fds[i];
          return -EACCES;
        }
        i := i + 1;
      }
      assert !Shared(fds[..], maxFd, k);
      fds[k] := fds[k].(excl := true);
      return 0;
    }

    method FdUnlock(k: nat) returns (rc: int)
      requires k < fds.Length
      modifies fds
      ensures Value() == Unlocked(old(Value()), k) && rc == 0
    {
      fds[k] := fds[k].(excl := false);
      rc := 0;
    }

    /** `found` is what the name stands for; `ret` is what the driver's open routine returns, 0 if it has none. */
    method Open(found: Dev, flags: nat, ret: int) returns (r: int)
      requires Valid()
      modifies this, fds
      ensures Valid() && (Value(), r) == Opened(old(Value()), found, flags, ret)
    {
      OpenKeeps(Value(), found, flags, ret);
      var index, status := -1, -ENODEV;
      ghost var was := fds[..];
      if !found.NoDev? {
        index := GetFd(found);
        if index < 0 {
          status := index;
        } else {
          assert FdOk(was[index], index, old(maxFd));
          fds[index] := fds[index].(flags := flags % USER_FLAGS, isDev := false, excl := false);
          var locked := 0;
          if found.Device? { locked := FileLocked(index); }
          if found.FileSystem? || locked >= 0 { status := ret; } else { status := locked; }
          assert fds[..] == Claimed(old(Value()), index, found, flags).list;
        }
      }
      if status < 0 {
        ReleaseFd(index);
        errno := -status;
        return -1;
      }
      return index;
    }

    /** `ret` is what the driver's close routine returns, 0 if it has none. */
    method Close(k: int, ret: int) returns (r: int)
      requires Valid() && k < MAX_FD && (k >= 0 ==> !fds[k].dev.NoDev?)
      modifies this, fds
      ensures Valid() && (Value(), r) == Closed(old(Value()), k, ret)
    {
      CloseKeeps(Value(), k, ret);
      if k >= 0 {
        ReleaseFd(k);
        if ret < 0 {
          errno := -ret;
          return -1;
        }
        return 0;
      } else {
        errno := EBADFD;
        return -1;
      }
    }

    /** `ret` is what the driver's ioctl routine returns, -ENOTTY if it has none. */
    method Ioctl(k: int, req: Request, ret: int) returns (rc: int)
      requires Valid() && k < MAX_FD && (k >= 0 ==> !fds[k].dev.NoDev?)
      modifies this, fds
      ensures Valid() && (Value(), rc) == Controlled(old(Value()), k, req, ret)
    {
      ControlKeeps(Value(), k, req, ret);
      if k >= 0 {
        if fds[k].isDev && req.Exclusive? {
          rc := FdLock(k);
        } else if fds[k].isDev && req.NotExclusive? {
          rc := FdUnlock(k);
        } else {
          rc := ret;
        }
      } else {
        rc := -EBADFD;
      }
      if rc < 0 { errno := -rc; }
    }

    /** Points one of the first three descriptors at another device or file, if that can be opened. */
    method OpenFd(k: nat, found: Dev, flags: nat, ret: int)
      requires Valid() && k <= 2
      modifies this, fds
      ensures Valid() && Value() == Redirected(old(Value()), k, found, flags, ret)
    {
      OpenKeeps(Value(), found, flags, ret);
      RedirectKeeps(Value(), k, found, flags, ret);
      var from := Open(found, flags, ret);
      if from >= 0 {
        fds[k] := fds[from];
        ReleaseFd(from);
      }
    }
  }
}
