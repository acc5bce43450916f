/** `Fd`, the owner of a descriptor: moving hands the descriptor on, and whoever has it last closes it. */
module Descriptors {

  /** The process's descriptor table. `faults` counts closes of descriptors that were not open. */
  class Kernel {
    var open: set<int>
    var faults: nat

    constructor ()
      ensures open == {} && faults == 0
    {
      open, faults := {}, 0;
    }

    method Close(fd: int)
      modifies this
      ensures open == old(open) - {fd}
      ensures faults == old(faults) + if fd in old(open) then 0 else 1
    {
      faults := faults + if fd in open then 0 else 1;
      open := open - {fd};
    }
  }

  /** Every open descriptor is either loose, a number nobody owns yet, or has one owner in the pool;
      owners hold open descriptors only. */
  ghost predicate Exclusive(pool: set<Fd>, loose: set<int>, kernel: Kernel)
    reads pool, kernel
  {
    && loose <= kernel.open
    && (forall f :: f in pool && f.fd >= 0 ==> f.fd in kernel.open && f.fd !in loose)
    && (forall f, g :: f in pool && g in pool && f.fd == g.fd && f.fd >= 0 ==> f == g)
    && (forall d :: d in kernel.open ==> d in loose || exists f :: f in pool && f.fd == d >= 0)
  }

  /** The descriptors a holder of `fd` leaves loose when it lets go. */
  function Freed(fd: int): set<int> { if fd >= 0 then {fd} else {} }

  class Fd {
    var fd: int

    constructor (fd: int)
      ensures this.fd == fd
    {
      this.fd := fd;
    }

    /** The move constructor. */
    constructor Moved(other: Fd)
      modifies other
      ensures fd == old(other.fd) && other.fd == -1
    {
      fd := other.fd;
      new;
      other.fd := -1;
    }

    /** Gives the descriptor up without closing it. */
    method Release(kernel: Kernel, ghost pool: set<Fd>, ghost loose: set<int>) returns (was: int)
      requires this in pool
      modifies this
      ensures was == old(fd) && fd == -1
      ensures old(Exclusive(pool, loose, kernel)) ==> Exclusive(pool, loose + Freed(was), kernel)
    {
      was := fd;
      fd := -1;
    }

    /** Takes `fd` in place of the old descriptor, which is closed unless it is the same one. When
        `fd` is a loose descriptor, the one already held, or none, ownership stays exclusive and the
        close, if any, meets an open descriptor. */
    method Reset(fd: int, kernel: Kernel, ghost pool: set<Fd>, ghost loose: set<int>)
      requires this in pool
      modifies this, kernel
      ensures this.fd == fd
      ensures kernel.open == old(kernel.open) - if old(this.fd) != fd then Freed(old(this.fd)) else {}
      ensures old(Exclusive(pool, loose, kernel)) ==> kernel.faults == old(kernel.faults)
      ensures old(Exclusive(pool, loose, kernel)) && (fd < 0 || fd in loose || fd == old(this.fd)) ==>
                Exclusive(pool, loose - Freed(fd), kernel)
    {
      if this.fd >= 0 && this.fd != fd {
        kernel.Close(this.fd);
      }
      this.fd := fd;
    }

    /** The destructor: a descriptor still held is closed, and no other. */
    method Destroy(kernel: Kernel, ghost pool: set<Fd>, ghost loose: set<int>)
      requires this in pool
      modifies this, kernel
      ensures kernel.open == old(kernel.open) - Freed(old(fd))
      ensures old(Exclusive(pool, loose, kernel)) ==>
                Exclusive(pool - {this}, loose, kernel) && kernel.faults == old(kernel.faults)
    {
      Reset(-1, kernel, pool, loose);
    }

    /** Move assignment: the old descriptor is closed and `other`'s taken over; onto itself it does
        nothing. Ownership stays exclusive. */
    method Assign(other: Fd, kernel: Kernel, ghost pool: set<Fd>, ghost loose: set<int>)
      requires this in pool && other in pool
      modifies this, other, kernel
      ensures this == other ==> fd == old(fd) && kernel.open == old(kernel.open) && kernel.faults == old(kernel.faults)
      ensures this != other ==> fd == old(other.fd) && other.fd == -1
      ensures this != other ==> kernel.open == old(kernel.open) - Freed(old(fd))
      ensures old(Exclusive(pool, loose, kernel)) ==>
                Exclusive(pool, loose, kernel) && kernel.faults == old(kernel.faults)
    {
      if this != other {
        Reset(-1, kernel, pool, loose);
        var taken := other.Release(kernel, pool, loose);
        Reset(taken, kernel, pool, loose + Freed(taken));
      }
    }
  }

  /** Passing a descriptor by value, as `accept`, `push`, `pop` and `Connection` do: the new owner has
      it, the old one nothing, nothing is closed, and ownership stays exclusive. */
  method PassOn(from: Fd, kernel: Kernel, ghost pool: set<Fd>, ghost loose: set<int>) returns (to: Fd)
    requires from in pool
    modifies from
    ensures fresh(to) && to.fd == old(from.fd) && from.fd == -1
    ensures old(Exclusive(pool, loose, kernel)) ==> Exclusive(pool + {to}, loose, kernel)
  {
    to := new Fd.Moved(from);
  }

  /** One descriptor's life: accepted, passed through any number of owners, each destroyed after it
      has passed it on. It is closed once, by the last of them, and nothing else is ever closed. */
  method Lifetime(fd: int, hops: nat, kernel: Kernel)
    requires fd >= 0 && fd in kernel.open
    modifies kernel
    ensures kernel.open == old(kernel.open) - {fd} && kernel.faults == old(kernel.faults)
  {
    ghost var loose := kernel.open - {fd};
    var owner := new Fd(fd);
    for i := 0 to hops
      invariant fresh(owner) && owner.fd == fd && kernel.open == old(kernel.open) && kernel.faults == old(kernel.faults)
    {
      var heir := PassOn(owner, kernel, {owner}, loose);
      owner.Destroy(kernel, {owner, heir}, loose);
      owner := heir;
    }
    owner.Destroy(kernel, {owner}, loose);
  }
}
