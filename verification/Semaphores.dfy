/** The FIFO direct-handoff semaphore of `trials/harness/pool.ts`. A ticket stands for one
    `acquire` call; a suspended call is its ticket in `waiters`, and `release` resumes the
    oldest one, which owns the slot from that moment. */
module Semaphores {
  import opened Text

  type Ticket = nat

  /** The semaphore with its history: who holds a slot, and the order of calls and grants. */
  datatype Sem = Sem(available: nat, waiters: seq<Ticket>, holders: set<Ticket>,
                     arrived: seq<Ticket>, granted: seq<Ticket>)

  function Fresh(size: nat): Sem { Sem(size, [], {}, [], []) }

  predicate Distinct<T(==)>(s: seq<T>) {
    forall i, j :: 0 <= i < j < |s| ==> s[i] != s[j]
  }

  function Elements(s: seq<Ticket>): set<Ticket> { set t | t in s }

  /** No slot is lost or invented, nobody queues while a slot is free, and slots are granted
      in exactly the order `acquire` was called. */
  predicate Sound(s: Sem, size: nat) {
    && s.available + |s.holders| == size
    && (s.waiters != [] ==> s.available == 0)
    && Distinct(s.waiters)
    && (forall t <- s.waiters :: t !in s.holders)
    && s.arrived == s.granted + s.waiters
  }

  predicate Idle(s: Sem, t: Ticket) { t !in s.holders && t !in s.waiters }

  function Acquired(s: Sem, t: Ticket): Sem {
    if s.available > 0 then
      s.(available := s.available - 1, holders := s.holders + {t}, arrived := s.arrived + [t], granted := s.granted + [t])
    else
      s.(waiters := s.waiters + [t], arrived := s.arrived + [t])
  }

  /** The waiter `release` resumes, if any. */
  function Woken(s: Sem): Option<Ticket> {
    if s.waiters == [] then None else Some(s.waiters[0])
  }

  function Released(s: Sem, t: Ticket): Sem {
    if s.waiters == [] then
      s.(available := s.available + 1, holders := s.holders - {t})
    else
      s.(waiters := s.waiters[1..], holders := s.holders - {t} + {s.waiters[0]}, granted := s.granted + [s.waiters[0]])
  }

  lemma AcquireSound(s: Sem, size: nat, t: Ticket)
    requires Sound(s, size) && Idle(s, t)
    ensures Sound(Acquired(s, t), size)
    ensures Elements(Acquired(s, t).waiters) == if s.available > 0 then Elements(s.waiters) else Elements(s.waiters) + {t}
  {
    if s.available > 0 {
      assert s.arrived + [t] == s.granted + [t] + [];
    } else {
      assert s.arrived + [t] == s.granted + (s.waiters + [t]);
    }
  }

  lemma ReleaseSound(s: Sem, size: nat, t: Ticket)
    requires Sound(s, size) && t in s.holders
    ensures Sound(Released(s, t), size)
    ensures Elements(Released(s, t).waiters) == match Woken(s) case None => {} case Some(w) => Elements(s.waiters) - {w}
  {
    assert |s.holders - {t}| == |s.holders| - 1;
    if s.waiters != [] {
      var next := s.waiters[0];
      assert next in s.waiters;
      assert s.waiters == [next] + s.waiters[1..];
      assert |s.holders - {t} + {next}| == |s.holders - {t}| + 1;
      assert s.arrived == s.granted + [next] + s.waiters[1..];
    }
  }

  /** A release by a caller without a slot makes one out of nothing. */
  lemma StrayRelease(s: Sem, size: nat, t: Ticket)
    requires Sound(s, size) && t !in s.holders
    ensures !Sound(Released(s, t), size)
  {
    assert s.holders - {t} == s.holders;
    if s.waiters != [] {
      assert s.waiters[0] in s.waiters;
      assert |s.holders + {s.waiters[0]}| == |s.holders| + 1;
    }
  }

  class Semaphore {
    var available: nat
    var waiters: seq<Ticket>
    const size: nat
    ghost var holders: set<Ticket>
    ghost var arrived: seq<Ticket>
    ghost var granted: seq<Ticket>

    ghost function Model(): Sem
      reads this
    {
      Sem(available, waiters, holders, arrived, granted)
    }

    ghost predicate Valid()
      reads this
    {
      Sound(Model(), size)
    }

    constructor (size: nat)
      requires size >= 1
      ensures Valid() && this.size == size && Model() == Fresh(size)
    {
      this.size := size;
      available, waiters := size, [];
      holders, arrived, granted := {}, [], [];
    }

    /** The constructor call of the source: sizes below one throw. */
    static method Create(size: int) returns (s: Semaphore?)
      ensures s == null <==> size < 1
      ensures s != null ==> fresh(s) && s.Valid() && s.size == size && s.Model() == Fresh(size)
    {
      if size < 1 { return null; }
      s := new Semaphore(size);
    }

    /** False means the caller is suspended until a release resumes its ticket. */
    method Acquire(t: Ticket) returns (now: bool)
      requires Valid() && Idle(Model(), t)
      modifies this
      ensures Valid() && Model() == Acquired(old(Model()), t)
      ensures now <==> t in holders
    {
      AcquireSound(Model(), size, t);
      arrived := arrived + [t];
      if available > 0 {
        available := available - 1;
        holders, granted := holders + {t}, granted + [t];
        return true;
      }
      waiters := waiters + [t];
      return false;
    }

    /** Any caller may release. From a sound state the result is sound exactly when the caller
        held a slot. */
    method Release(ghost t: Ticket) returns (next: Option<Ticket>)
      modifies this
      ensures Model() == Released(old(Model()), t) && next == Woken(old(Model()))
      ensures old(Valid()) ==> (Valid() <==> t in old(holders))
    {
      if Valid() {
        if t in holders { ReleaseSound(Model(), size, t); } else { StrayRelease(Model(), size, t); }
      }
      if waiters != [] {
        next := Some(waiters[0]);
        holders, granted := holders - {t} + {waiters[0]}, granted + [waiters[0]];
        waiters := waiters[1..];
      } else {
        next := None;
        holders := holders - {t};
        available := available + 1;
      }
    }
  }
}
