/** The per-network reference-counted mutexes of the network service.

    `networkMutexes` maps a network name to a mutex and the number of requests that use it.
    A request calls `ensureLock`, locks the mutex it was given, works, and then runs its
    deferred calls last-in first-out: `releaseLock` first, `Unlock` second.  Between those two
    the table entry may already be gone (or belong to a new mutex) while the old mutex is
    still locked. */
module NetworkLocks {
  import opened Prelude

  type Name = string
  type Mutex = nat

  datatype Entry = Entry(mutex: Mutex, activeReqs: int)

  /** Mutexes are numbered in the order they are made; `next` is the next unused number. */
  datatype Locks = Locks(table: map<Name, Entry>, next: Mutex, held: set<Mutex>)

  function Ensured(l: Locks, name: Name): Locks {
    if name in l.table then
      l.(table := l.table[name := l.table[name].(activeReqs := l.table[name].activeReqs + 1)])
    else
      l.(table := l.table[name := Entry(l.next, 1)], next := l.next + 1)
  }

  function MutexFor(l: Locks, name: Name): Mutex {
    if name in l.table then l.table[name].mutex else l.next
  }

  function Released(l: Locks, name: Name): Locks {
    if name !in l.table then l
    else if l.table[name].activeReqs - 1 < 1 then l.(table := l.table - {name})
    else l.(table := l.table[name := l.table[name].(activeReqs := l.table[name].activeReqs - 1)])
  }

  /** The service's mutable table.  Both methods run under `service.mu`, so each is one
      indivisible step of the protocol below. */
  class MutexTable {
    var networkMutexes: map<Name, Entry>
    var nextMutex: Mutex
    ghost var locked: set<Mutex>

    ghost function View(): Locks
      reads this
    {
      Locks(networkMutexes, nextMutex, locked)
    }

    constructor ()
      ensures View() == Locks(map[], 0, {})
    {
      networkMutexes, nextMutex, locked := map[], 0, {};
    }

    method EnsureLock(networkName: Name) returns (mutex: Mutex)
      modifies this
      ensures View() == Ensured(old(View()), networkName)
      ensures mutex == MutexFor(old(View()), networkName)
      ensures networkName in networkMutexes && networkMutexes[networkName].mutex == mutex
    {
      if networkName in networkMutexes {
        var mwc := networkMutexes[networkName];
        networkMutexes := networkMutexes[networkName := mwc.(activeReqs := mwc.activeReqs + 1)];
        return mwc.mutex;
      }
      mutex := nextMutex;
      nextMutex := nextMutex + 1;
      networkMutexes := networkMutexes[networkName := Entry(mutex, 1)];
    }

    method ReleaseLock(networkName: Name)
      modifies this
      ensures View() == Released(old(View()), networkName)
    {
      if networkName in networkMutexes {
        var mwc := networkMutexes[networkName];
        mwc := mwc.(activeReqs := mwc.activeReqs - 1);
        networkMutexes := networkMutexes[networkName := mwc];
        if mwc.activeReqs < 1 {
          networkMutexes := networkMutexes - {networkName};
        }
        assert networkMutexes == Released(old(View()), networkName).table;
      }
    }
  }

  /** Where one activation of Create or Remove stands with respect to its mutex. */
  datatype Act =
    | Outside                            // has not called ensureLock
    | Waiting(name: Name, mutex: Mutex)  // between ensureLock and Lock
    | Holding(name: Name, mutex: Mutex)  // between Lock and releaseLock: the backend section
    | Releasing(name: Name, mutex: Mutex)// between releaseLock and Unlock
    | Finished

  predicate Counts(a: Act, n: Name) {
    (a.Waiting? || a.Holding?) && a.name == n
  }

  /** Between Lock and Unlock. */
  predicate Locker(a: Act) {
    a.Holding? || a.Releasing?
  }

  predicate Owns(a: Act, m: Mutex) {
    Locker(a) && a.mutex == m
  }

  function CountFor(n: Name): Act -> nat {
    (a: Act) => if Counts(a, n) then 1 else 0
  }

  /** The number of activations between ensureLock and releaseLock for a name. */
  function Users(acts: seq<Act>, n: Name): nat {
    SumOf(acts, CountFor(n))
  }

  datatype LockState = LockState(locks: Locks, acts: seq<Act>)

  datatype LockMove =
    | Spawn
    | Leave(i: nat)
    | Ensure(i: nat, name: Name)
    | Lock(i: nat)
    | Release(i: nat)
    | Unlock(i: nat)
    | Work

  predicate CanMove(s: LockState, v: LockMove) {
    match v
    case Spawn => true
    case Work => true
    case Leave(i) => i < |s.acts| && s.acts[i].Outside?
    case Ensure(i, _) => i < |s.acts| && s.acts[i].Outside?
    case Lock(i) => i < |s.acts| && s.acts[i].Waiting? && s.acts[i].mutex !in s.locks.held
    case Release(i) => i < |s.acts| && s.acts[i].Holding?
    case Unlock(i) => i < |s.acts| && s.acts[i].Releasing?
  }

  function Move(s: LockState, v: LockMove): LockState
    requires CanMove(s, v)
  {
    match v
    case Spawn => s.(acts := s.acts + [Outside])
    case Work => s
    case Leave(i) => s.(acts := s.acts[i := Finished])
    case Ensure(i, n) =>
      LockState(Ensured(s.locks, n), s.acts[i := Waiting(n, MutexFor(s.locks, n))])
    case Lock(i) =>
      LockState(s.locks.(held := s.locks.held + {s.acts[i].mutex}),
                s.acts[i := Holding(s.acts[i].name, s.acts[i].mutex)])
    case Release(i) =>
      LockState(Released(s.locks, s.acts[i].name),
                s.acts[i := Releasing(s.acts[i].name, s.acts[i].mutex)])
    case Unlock(i) =>
      LockState(s.locks.(held := s.locks.held - {s.acts[i].mutex}), s.acts[i := Finished])
  }

  ghost predicate TableInv(s: LockState) {
    && (forall n :: n in s.locks.table ==>
          s.locks.table[n].mutex < s.locks.next && s.locks.table[n].activeReqs >= 1)
    && (forall n, k :: n in s.locks.table && k in s.locks.table && n != k ==>
          s.locks.table[n].mutex != s.locks.table[k].mutex)
  }

  /** Every counter is the exact number of its users. */
  ghost predicate CountInv(s: LockState) {
    forall n :: Users(s.acts, n) == Counter(s.locks, n)
  }

  /** All users of a name hold the mutex now in the table. */
  ghost predicate UserInv(s: LockState) {
    forall i :: 0 <= i < |s.acts| && (s.acts[i].Waiting? || s.acts[i].Holding?) ==>
      && s.acts[i].name in s.locks.table
      && s.locks.table[s.acts[i].name].mutex == s.acts[i].mutex
  }

  ghost predicate OwnersHold(s: LockState) {
    forall i :: 0 <= i < |s.acts| && Locker(s.acts[i]) ==> s.acts[i].mutex in s.locks.held && s.acts[i].mutex < s.locks.next
  }

  ghost predicate OwnersUnique(s: LockState) {
    forall i, j ::
      0 <= i < j < |s.acts| && Locker(s.acts[i]) && Locker(s.acts[j]) ==> s.acts[i].mutex != s.acts[j].mutex
  }

  ghost predicate HeldOwned(s: LockState) {
    forall m :: m in s.locks.held ==> exists i :: 0 <= i < |s.acts| && Owns(s.acts[i], m)
  }

  /** A mutex is locked exactly while one activation is between Lock and Unlock on it. */
  ghost predicate OwnerInv(s: LockState) {
    OwnersHold(s) && OwnersUnique(s) && HeldOwned(s)
  }

  ghost predicate LockInv(s: LockState) {
    TableInv(s) && CountInv(s) && UserInv(s) && OwnerInv(s)
  }

  lemma {:induction false} UsersUpdate(acts: seq<Act>, i: nat, a: Act, n: Name)
    requires i < |acts|
    ensures Users(acts[i := a], n) + CountFor(n)(acts[i]) == Users(acts, n) + CountFor(n)(a)
  {
    SumUpdate(acts, i, a, CountFor(n));
  }

  lemma MoveKeepsTable(s: LockState, v: LockMove)
    requires LockInv(s) && CanMove(s, v)
    ensures TableInv(Move(s, v))
  {
  }

  /** How a move changes the number of users of a name. */
  function Change(s: LockState, v: LockMove, n: Name): int
    requires CanMove(s, v)
  {
    if v.Ensure? && v.name == n then 1 else if v.Release? && s.acts[v.i].name == n then -1 else 0
  }

  lemma UsersAfter(s: LockState, v: LockMove, n: Name)
    requires CanMove(s, v)
    ensures Users(Move(s, v).acts, n) == Users(s.acts, n) + Change(s, v, n)
  {
    match v
    case Work =>
    case Spawn => SumAppend(s.acts, Outside, CountFor(n));
    case Leave(i) => UsersUpdate(s.acts, i, Finished, n);
    case Ensure(i, k) => UsersUpdate(s.acts, i, Waiting(k, MutexFor(s.locks, k)), n);
    case Lock(i) => UsersUpdate(s.acts, i, Holding(s.acts[i].name, s.acts[i].mutex), n);
    case Release(i) => UsersUpdate(s.acts, i, Releasing(s.acts[i].name, s.acts[i].mutex), n);
    case Unlock(i) => UsersUpdate(s.acts, i, Finished, n);
  }

  function Counter(l: Locks, n: Name): int {
    if n in l.table then l.table[n].activeReqs else 0
  }

  lemma CounterAfter(s: LockState, v: LockMove, n: Name)
    requires CanMove(s, v) && TableInv(s) && UserInv(s)
    ensures Counter(Move(s, v).locks, n) == Counter(s.locks, n) + Change(s, v, n)
  {
  }

  lemma MoveKeepsCounts(s: LockState, v: LockMove)
    requires LockInv(s) && CanMove(s, v)
    ensures CountInv(Move(s, v))
  {
    forall n ensures Users(Move(s, v).acts, n) == Counter(Move(s, v).locks, n) {
      UsersAfter(s, v, n);
      CounterAfter(s, v, n);
    }
  }

  lemma MoveKeepsUsers(s: LockState, v: LockMove)
    requires LockInv(s) && CanMove(s, v)
    ensures UserInv(Move(s, v))
  {
    var t := Move(s, v);
    if v.Release? {
      var n := s.acts[v.i].name;
      forall j | 0 <= j < |t.acts| && (t.acts[j].Waiting? || t.acts[j].Holding?) && t.acts[j].name == n
        ensures n in t.locks.table
      {
        // Another user is left, so the counter was at least two and the entry survives.
        MoveKeepsCounts(s, v);
        SumAtLeast(t.acts, j, CountFor(n));
        assert Users(t.acts, n) == Counter(t.locks, n);
      }
    }
  }

  /** Only Lock makes a new owner, and it does so of a mutex nobody owned. */
  lemma OwnerBefore(s: LockState, v: LockMove, j: nat, m: Mutex)
    requires TableInv(s) && UserInv(s) && OwnerInv(s) && CanMove(s, v)
    requires j < |Move(s, v).acts| && Owns(Move(s, v).acts[j], m)
    ensures m in Move(s, v).locks.held && m < Move(s, v).locks.next
    ensures j < |s.acts| && (Owns(s.acts[j], m) || (v == Lock(j) && m !in s.locks.held))
  {
    if v.Unlock? {
      assert Owns(s.acts[v.i], s.acts[v.i].mutex);
    }
    assert v == Lock(j) || Owns(s.acts[j], m);
  }

  lemma MoveKeepsOwners(s: LockState, v: LockMove)
    requires TableInv(s) && UserInv(s) && OwnerInv(s) && CanMove(s, v)
    ensures OwnersHold(Move(s, v)) && OwnersUnique(Move(s, v))
  {
    var t := Move(s, v);
    forall j | 0 <= j < |t.acts| && Locker(t.acts[j])
      ensures t.acts[j].mutex in t.locks.held && t.acts[j].mutex < t.locks.next
    {
      OwnerBefore(s, v, j, t.acts[j].mutex);
    }
    forall j, k | 0 <= j < k < |t.acts| && Locker(t.acts[j]) && Locker(t.acts[k])
      ensures t.acts[j].mutex != t.acts[k].mutex
    {
      OwnerBefore(s, v, j, t.acts[j].mutex);
      OwnerBefore(s, v, k, t.acts[k].mutex);
    }
  }

  lemma MoveKeepsHeld(s: LockState, v: LockMove)
    requires OwnerInv(s) && CanMove(s, v)
    ensures HeldOwned(Move(s, v))
  {
    var t := Move(s, v);
    forall m | m in t.locks.held ensures exists i :: 0 <= i < |t.acts| && Owns(t.acts[i], m) {
      if m in s.locks.held {
        var i :| 0 <= i < |s.acts| && Owns(s.acts[i], m);
        assert Owns(t.acts[i], m);
      } else {
        assert v.Lock? && Owns(t.acts[v.i], m);
      }
    }
  }

  /** Every move of every activation keeps the invariant. */
  lemma MoveKeepsInv(s: LockState, v: LockMove)
    requires LockInv(s) && CanMove(s, v)
    ensures LockInv(Move(s, v))
  {
    MoveKeepsTable(s, v);
    MoveKeepsCounts(s, v);
    MoveKeepsUsers(s, v);
    MoveKeepsOwners(s, v);
    MoveKeepsHeld(s, v);
  }

  /** At most one activation is in the backend section of a network name. */
  lemma MutualExclusion(s: LockState, i: nat, j: nat)
    requires LockInv(s)
    requires i < |s.acts| && j < |s.acts|
    requires s.acts[i].Holding? && s.acts[j].Holding? && s.acts[i].name == s.acts[j].name
    ensures i == j
  {
    assert Owns(s.acts[i], s.acts[i].mutex) && Owns(s.acts[j], s.acts[j].mutex);
  }

  ghost predicate LockInit(s: LockState) {
    s.locks == Locks(map[], 0, {}) && forall i :: 0 <= i < |s.acts| ==> s.acts[i] == Outside
  }

  lemma InitHolds(s: LockState)
    requires LockInit(s)
    ensures LockInv(s)
  {
    forall n ensures Users(s.acts, n) == 0 {
      SumZero(s.acts, CountFor(n));
    }
  }

  /** When every activation has finished, nothing is left in the table and nothing is locked. */
  lemma QuiescentIsEmpty(s: LockState)
    requires LockInv(s) && forall i :: 0 <= i < |s.acts| ==> s.acts[i].Finished?
    ensures s.locks.table == map[] && s.locks.held == {}
  {
    forall n ensures n !in s.locks.table {
      SumZero(s.acts, CountFor(n));
      assert Users(s.acts, n) == Counter(s.locks, n);
    }
  }
}
