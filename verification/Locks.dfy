/** The per-key lock manager: a map of reference-counted read/write locks whose entries are
    deleted with the last reference and re-created on demand.

    `LockManager` is the object itself, one method per section guarded by its mutex.
    `LockProtocol` interleaves those sections between any number of threads: every section is
    one atomic step, and blocking is a step that is not enabled. */
module Locks {

  type Key = string

  // ---- Reference counts per key: the view shared by the object and by the protocol ----

  function Raised(counts: map<Key, int>, key: Key): map<Key, int> {
    counts[key := if key in counts then counts[key] + 1 else 1]
  }

  function Lowered(counts: map<Key, int>, key: Key): map<Key, int>
    requires key in counts
  {
    if counts[key] == 1 then counts - {key} else counts[key := counts[key] - 1]
  }

  lemma LowerUndoesRaise(counts: map<Key, int>, key: Key)
    requires key in counts ==> counts[key] > 0
    ensures Lowered(Raised(counts, key), key) == counts
  {
    if key !in counts {
      assert Raised(counts, key) - {key} == counts;
    }
  }

  /** One entry. Its read/write mutex is modelled with its users, in `LockProtocol`. */
  class RefLock {
    var refs: int

    constructor ()
      ensures refs == 0
    {
      refs := 0;
    }
  }

  class LockManager {
    var locks: map<Key, RefLock>

    constructor ()
      ensures Valid() && Counts() == map[]
    {
      locks := map[];
    }

    ghost predicate Valid()
      reads this, locks.Values
    {
      && (forall k :: k in locks ==> locks[k].refs > 0)
      && (forall k, j :: k in locks && j in locks && locks[k] == locks[j] ==> k == j)
    }

    ghost function Counts(): map<Key, int>
      reads this, locks.Values
    {
      map k | k in locks :: locks[k].refs
    }

    /** The first half of `lock`: find or create the entry and count one more reference. */
    method TakeRef(key: Key) returns (lock: RefLock)
      requires Valid()
      modifies this, locks.Values
      ensures Valid()
      ensures key in locks && locks[key] == lock
      ensures key in old(locks) ==> locks == old(locks)
      ensures key !in old(locks) ==> fresh(lock) && locks == old(locks)[key := lock]
      ensures Counts() == Raised(old(Counts()), key)
    {
      if key in locks {
        lock := locks[key];
      } else {
        lock := new RefLock();
        locks := locks[key := lock];
      }
      lock.refs := lock.refs + 1;
    }

    /** The second half of the release closure: drop the reference, and the entry with the last one.
        The closure deletes by key, which is only right because the entry is still the current one. */
    method DropRef(key: Key, lock: RefLock)
      requires Valid()
      requires key in locks && locks[key] == lock
      modifies this, lock
      ensures Valid()
      ensures Counts() == Lowered(old(Counts()), key)
      ensures key in locks ==> locks == old(locks)
      ensures key !in locks ==> locks == old(locks) - {key}
    {
      lock.refs := lock.refs - 1;
      if lock.refs == 0 {
        locks := locks - {key};
      }
    }
  }
}

module LockProtocol {
  import opened Locks

  type Tid = nat
  type LockId = nat

  datatype Mode = Shared | Exclusive

  /** Where a thread is between calling `lock` and the end of the closure it returned. */
  datatype Phase =
    | Idle
    | Waiting(key: Key, lock: LockId, mode: Mode)    // reference counted, mutex not yet acquired
    | Holding(key: Key, lock: LockId, mode: Mode)
    | Released(key: Key, lock: LockId)               // mutex released, reference still counted

  datatype Entry = Entry(refs: int, readers: int, writer: bool)

  /** `objects` keeps every entry ever allocated, also those no longer in the map: a thread reaches
      its entry through the pointer it took, not through the map. */
  datatype State = State(locks: map<Key, LockId>, objects: map<LockId, Entry>, nextId: LockId, phase: map<Tid, Phase>)

  datatype Step =
    | TakeRef(t: Tid, key: Key, mode: Mode)
    | Acquire(t: Tid)
    | Unlock(t: Tid)
    | DropRef(t: Tid)

  function PhaseOf(s: State, t: Tid): Phase {
    if t in s.phase then s.phase[t] else Idle
  }

  // ---- Steps ----

  predicate Enabled(s: State, step: Step) {
    var p := PhaseOf(s, step.t);
    match step
    case TakeRef(_, _, _) => p.Idle?
    case Acquire(_) =>
      && p.Waiting?
      && !At(s, p.lock).writer
      && (p.mode == Exclusive ==> At(s, p.lock).readers == 0)
    case Unlock(_) => p.Holding?
    case DropRef(_) => p.Released?
  }

  /** Whose turn it is among those waiting for one mutex. Go's mutex lets no reader overtake a writer
      that is already waiting, but on a writer's unlock admits all readers waiting then before the
      next writer: which of the two is in force depends on the moment and the entry. */
  datatype Turn = Writers | Readers

  /** Enabled, and not against the turn. */
  ghost predicate FairlyEnabled(s: State, step: Step, turn: Turn) {
    && Enabled(s, step)
    && (step.Acquire? ==>
          var p := PhaseOf(s, step.t);
          match turn
          case Writers => p.mode == Shared ==> !Queued(s, p.lock, Exclusive)
          case Readers => p.mode == Exclusive ==> !Queued(s, p.lock, Shared))
  }

  ghost predicate Queued(s: State, l: LockId, mode: Mode) {
    exists u :: u in s.phase && s.phase[u].Waiting? && s.phase[u].lock == l && s.phase[u].mode == mode
  }

  function At(s: State, l: LockId): Entry {
    if l in s.objects then s.objects[l] else Entry(0, 0, false)
  }

  function Next(s: State, step: Step): State
    requires Enabled(s, step)
  {
    var t := step.t;
    var p := PhaseOf(s, t);
    match step
    case TakeRef(_, key, mode) =>
      var l := if key in s.locks then s.locks[key] else s.nextId;
      var e := if key in s.locks then At(s, l) else Entry(0, 0, false);
      State(s.locks[key := l],
            s.objects[l := e.(refs := e.refs + 1)],
            if key in s.locks then s.nextId else s.nextId + 1,
            s.phase[t := Waiting(key, l, mode)])
    case Acquire(_) =>
      var e := At(s, p.lock);
      s.(objects := s.objects[p.lock := if p.mode == Shared then e.(readers := e.readers + 1) else e.(writer := true)],
         phase := s.phase[t := Holding(p.key, p.lock, p.mode)])
    case Unlock(_) =>
      var e := At(s, p.lock);
      s.(objects := s.objects[p.lock := if p.mode == Shared then e.(readers := e.readers - 1) else e.(writer := false)],
         phase := s.phase[t := Released(p.key, p.lock)])
    case DropRef(_) =>
      var e := At(s, p.lock).(refs := At(s, p.lock).refs - 1);
      State(if e.refs == 0 then s.locks - {p.key} else s.locks,
            s.objects[p.lock := e], s.nextId, s.phase[t := Idle])
  }

  lemma PhaseAfter(s: State, step: Step)
    requires Enabled(s, step)
    ensures forall u :: u != step.t ==> PhaseOf(Next(s, step), u) == PhaseOf(s, u)
    ensures step.TakeRef? ==>
      var q := PhaseOf(Next(s, step), step.t); q.Waiting? && q.key == step.key && q.mode == step.mode
    ensures step.Acquire? ==>
      var p, q := PhaseOf(s, step.t), PhaseOf(Next(s, step), step.t); q.Holding? && q.key == p.key && q.mode == p.mode
    ensures step.Unlock? ==>
      var p, q := PhaseOf(s, step.t), PhaseOf(Next(s, step), step.t); q.Released? && q.key == p.key
    ensures step.DropRef? ==> PhaseOf(Next(s, step), step.t).Idle?
  {
  }

  const INIT := State(map[], map[], 0, map[])

  // ---- The invariant ----

  function Users(s: State, l: LockId): set<Tid> {
    set t | t in s.phase && !s.phase[t].Idle? && s.phase[t].lock == l
  }

  function Holders(s: State, l: LockId, mode: Mode): set<Tid> {
    set t | t in s.phase && s.phase[t].Holding? && s.phase[t].lock == l && s.phase[t].mode == mode
  }

  /** Every thread between taking and dropping a reference on a key uses the entry that is in the map. */
  ghost predicate Current(s: State) {
    forall t :: t in s.phase && !s.phase[t].Idle? ==>
      s.phase[t].key in s.locks && s.locks[s.phase[t].key] == s.phase[t].lock
  }

  ghost predicate Mapped(s: State) {
    && (forall l :: l in s.objects ==> l < s.nextId)
    && (forall k :: k in s.locks ==> s.locks[k] in s.objects)
    && (forall k, j :: k in s.locks && j in s.locks && s.locks[k] == s.locks[j] ==> k == j)
  }

  /** The counters of an entry in the map are the numbers of threads they stand for. */
  ghost predicate Counted(s: State, k: Key)
    requires k in s.locks && s.locks[k] in s.objects
  {
    var l := s.locks[k];
    var e := s.objects[l];
    && e.refs == |Users(s, l)| > 0
    && e.readers == |Holders(s, l, Shared)|
    && |Holders(s, l, Exclusive)| == (if e.writer then 1 else 0)
    && (e.writer ==> e.readers == 0)
  }

  ghost predicate Inv(s: State) {
    Mapped(s) && Current(s) && forall k :: k in s.locks ==> Counted(s, k)
  }

  lemma InitInv()
    ensures Inv(INIT)
  {
  }

  /** Moving one thread from one phase to another changes the counted sets by that thread alone. */
  lemma SetsMove(s: State, s': State, t: Tid, l: LockId)
    requires s'.phase == s.phase[t := PhaseOf(s', t)] && t in s'.phase
    ensures Users(s', l) ==
      if !PhaseOf(s', t).Idle? && PhaseOf(s', t).lock == l then Users(s, l) + {t} else Users(s, l) - {t}
    ensures forall m ::
      (Holders(s', l, m) ==
       if PhaseOf(s', t).Holding? && PhaseOf(s', t).lock == l && PhaseOf(s', t).mode == m
       then Holders(s, l, m) + {t} else Holders(s, l, m) - {t})
    ensures t in Users(s, l) <==> !PhaseOf(s, t).Idle? && PhaseOf(s, t).lock == l
    ensures forall m :: t in Holders(s, l, m) <==>
      PhaseOf(s, t).Holding? && PhaseOf(s, t).lock == l && PhaseOf(s, t).mode == m
  {
  }

  /** Under the invariant no step can unlock an unlocked mutex or follow a dangling entry. */
  lemma StepDefined(s: State, step: Step)
    requires Inv(s) && Enabled(s, step)
    ensures step.Unlock? || step.DropRef? ==> PhaseOf(s, step.t).lock in s.objects
    ensures step.Unlock? && PhaseOf(s, step.t).mode == Shared ==> s.objects[PhaseOf(s, step.t).lock].readers > 0
    ensures step.Unlock? && PhaseOf(s, step.t).mode == Exclusive ==> s.objects[PhaseOf(s, step.t).lock].writer
    ensures step.TakeRef? && step.key in s.locks ==> s.locks[step.key] in s.objects
  {
    var p := PhaseOf(s, step.t);
    if step.Unlock? {
      assert Counted(s, p.key);
      assert step.t in Holders(s, p.lock, p.mode);
    }
  }

  lemma StepMapped(s: State, step: Step)
    requires Inv(s) && Enabled(s, step)
    ensures Mapped(Next(s, step))
  {
  }

  /** An entry that thread `t` uses neither before nor after its step stays counted. */
  lemma UntouchedCounted(s: State, s': State, t: Tid, k: Key)
    requires t in s'.phase && s'.phase == s.phase[t := s'.phase[t]]
    requires k in s.locks && k in s'.locks && s'.locks[k] == s.locks[k] && s.locks[k] in s.objects &&
      s.locks[k] in s'.objects
    requires s'.objects[s.locks[k]] == s.objects[s.locks[k]] && Counted(s, k)
    requires PhaseOf(s, t).Idle? || PhaseOf(s, t).lock != s.locks[k]
    requires PhaseOf(s', t).Idle? || PhaseOf(s', t).lock != s.locks[k]
    ensures Counted(s', k)
  {
    SetsMove(s, s', t, s.locks[k]);
  }

  lemma NewEntryCounted(s: State, t: Tid, key: Key, mode: Mode)
    requires Inv(s) && Enabled(s, TakeRef(t, key, mode)) && key !in s.locks
    ensures Counted(Next(s, TakeRef(t, key, mode)), key)
  {
    var s' := Next(s, TakeRef(t, key, mode));
    var l := s.nextId;
    assert forall u :: u in s.phase && !s.phase[u].Idle? ==> s.phase[u].lock in s.objects;
    assert Users(s, l) == {} && Holders(s, l, Shared) == {} && Holders(s, l, Exclusive) == {};
    SetsMove(s, s', t, l);
  }

  lemma SharedEntryCounted(s: State, t: Tid, key: Key, mode: Mode)
    requires Inv(s) && Enabled(s, TakeRef(t, key, mode)) && key in s.locks
    ensures Counted(Next(s, TakeRef(t, key, mode)), key)
  {
    assert Counted(s, key);
    SetsMove(s, Next(s, TakeRef(t, key, mode)), t, s.locks[key]);
  }

  lemma TakeRefCounted(s: State, t: Tid, key: Key, mode: Mode, k: Key)
    requires Inv(s) && Enabled(s, TakeRef(t, key, mode))
    requires k in Next(s, TakeRef(t, key, mode)).locks
    ensures Mapped(Next(s, TakeRef(t, key, mode))) && Counted(Next(s, TakeRef(t, key, mode)), k)
  {
    StepMapped(s, TakeRef(t, key, mode));
    if k != key {
      UntouchedCounted(s, Next(s, TakeRef(t, key, mode)), t, k);
    } else if key in s.locks {
      SharedEntryCounted(s, t, key, mode);
    } else {
      NewEntryCounted(s, t, key, mode);
    }
  }

  lemma AcquireCounted(s: State, t: Tid)
    requires Inv(s) && Enabled(s, Acquire(t))
    ensures PhaseOf(s, t).key in s.locks && Mapped(Next(s, Acquire(t))) &&
      Counted(Next(s, Acquire(t)), PhaseOf(s, t).key)
  {
    var k := PhaseOf(s, t).key;
    StepMapped(s, Acquire(t));
    assert k in s.locks && s.locks[k] == PhaseOf(s, t).lock;
    assert Counted(s, k);
    SetsMove(s, Next(s, Acquire(t)), t, s.locks[k]);
    assert Users(s, s.locks[k]) + {t} == Users(s, s.locks[k]);
  }

  lemma UnlockCounted(s: State, t: Tid)
    requires Inv(s) && Enabled(s, Unlock(t))
    ensures PhaseOf(s, t).key in s.locks && Mapped(Next(s, Unlock(t))) && Counted(Next(s, Unlock(t)), PhaseOf(s, t).key)
  {
    var k := PhaseOf(s, t).key;
    StepMapped(s, Unlock(t));
    assert k in s.locks && s.locks[k] == PhaseOf(s, t).lock;
    assert Counted(s, k);
    SetsMove(s, Next(s, Unlock(t)), t, s.locks[k]);
    assert Users(s, s.locks[k]) + {t} == Users(s, s.locks[k]);
    assert t in Holders(s, s.locks[k], PhaseOf(s, t).mode);
  }

  lemma MutexCounted(s: State, step: Step, k: Key)
    requires Inv(s) && Enabled(s, step) && (step.Acquire? || step.Unlock?)
    requires k in s.locks
    ensures Mapped(Next(s, step)) && Counted(Next(s, step), k)
  {
    if step.Acquire? { AcquireCounted(s, step.t); } else { UnlockCounted(s, step.t); }
    if k != PhaseOf(s, step.t).key {
      UntouchedCounted(s, Next(s, step), step.t, k);
    }
  }

  lemma OwnDropSets(s: State, t: Tid)
    requires Inv(s) && Enabled(s, DropRef(t))
    ensures var s' := Next(s, DropRef(t)); var l := PhaseOf(s, t).lock;
      && t in Users(s, l) && Users(s', l) == Users(s, l) - {t}
      && Holders(s', l, Shared) == Holders(s, l, Shared) && Holders(s', l, Exclusive) == Holders(s, l, Exclusive)
  {
    SetsMove(s, Next(s, DropRef(t)), t, PhaseOf(s, t).lock);
  }

  lemma OwnDropEntry(s: State, t: Tid)
    requires Inv(s) && Enabled(s, DropRef(t)) && PhaseOf(s, t).key in Next(s, DropRef(t)).locks
    ensures var s' := Next(s, DropRef(t)); var k, l := PhaseOf(s, t).key, PhaseOf(s, t).lock;
      && k in s.locks && s.locks[k] == l && s'.locks[k] == l && l in s.objects && l in s'.objects
      && s'.objects[l] == s.objects[l].(refs := s.objects[l].refs - 1) && s'.objects[l].refs != 0
  {
  }

  lemma OwnDropCounted(s: State, t: Tid)
    requires Inv(s) && Enabled(s, DropRef(t)) && PhaseOf(s, t).key in Next(s, DropRef(t)).locks
    ensures Mapped(Next(s, DropRef(t))) && Counted(Next(s, DropRef(t)), PhaseOf(s, t).key)
  {
    StepMapped(s, DropRef(t));
    OwnDropEntry(s, t);
    OwnDropSets(s, t);
    assert Counted(s, PhaseOf(s, t).key);
  }

  lemma DropRefCounted(s: State, t: Tid, k: Key)
    requires Inv(s) && Enabled(s, DropRef(t))
    requires k in Next(s, DropRef(t)).locks
    ensures Mapped(Next(s, DropRef(t))) && Counted(Next(s, DropRef(t)), k)
  {
    StepMapped(s, DropRef(t));
    if k == PhaseOf(s, t).key {
      OwnDropCounted(s, t);
    } else {
      UntouchedCounted(s, Next(s, DropRef(t)), t, k);
    }
  }

  lemma StepCounted(s: State, step: Step, k: Key)
    requires Inv(s) && Enabled(s, step) && k in Next(s, step).locks
    ensures Mapped(Next(s, step)) && Counted(Next(s, step), k)
  {
    match step
    case TakeRef(t, key, mode) => TakeRefCounted(s, t, key, mode, k);
    case Acquire(_) => MutexCounted(s, step, k);
    case Unlock(_) => MutexCounted(s, step, k);
    case DropRef(t) => DropRefCounted(s, t, k);
  }

  lemma StepCurrent(s: State, step: Step)
    requires Inv(s) && Enabled(s, step)
    ensures Current(Next(s, step))
  {
    var s' := Next(s, step);
    if step.DropRef? {
      var p := PhaseOf(s, step.t);
      SetsMove(s, s', step.t, p.lock);
      assert Counted(s, p.key);
      assert At(s', p.lock).refs == |Users(s', p.lock)|;
      forall u | u in s'.phase && !s'.phase[u].Idle?
        ensures s'.phase[u].key in s'.locks && s'.locks[s'.phase[u].key] == s'.phase[u].lock
      {
        if s'.phase[u].key == p.key {
          assert u in Users(s', p.lock);
        }
      }
    }
  }

  lemma StepInv(s: State, step: Step)
    requires Inv(s) && Enabled(s, step)
    ensures Inv(Next(s, step))
  {
    var s' := Next(s, step);
    StepCurrent(s, step);
    StepMapped(s, step);
    forall k | k in s'.locks ensures Counted(s', k) { StepCounted(s, step, k); }
  }

  // ---- What the invariant gives ----

  /** A writer on a key excludes every other holder of that key, although entries come and go. */
  lemma WriterExcludes(s: State, t: Tid, u: Tid)
    requires Inv(s) && t != u
    requires PhaseOf(s, t).Holding? && PhaseOf(s, u).Holding? && PhaseOf(s, t).key == PhaseOf(s, u).key
    ensures PhaseOf(s, t).mode == Shared && PhaseOf(s, u).mode == Shared
  {
    var l := PhaseOf(s, t).lock;
    assert Counted(s, PhaseOf(s, t).key);
    assert t in Holders(s, l, PhaseOf(s, t).mode) && u in Holders(s, l, PhaseOf(s, u).mode);
    if PhaseOf(s, t).mode == Exclusive && PhaseOf(s, u).mode == Exclusive {
      assert {t, u} <= Holders(s, l, Exclusive);
      assert |{t, u}| == 2;
      SubsetSize({t, u}, Holders(s, l, Exclusive));
    }
  }

  /** A waiting thread can acquire its key exactly when nobody holds it, or it and all who hold it read. */
  lemma AcquiresIff(s: State, t: Tid)
    requires Inv(s) && PhaseOf(s, t).Waiting?
    ensures Enabled(s, Acquire(t)) <==>
      forall u :: PhaseOf(s, u).Holding? && PhaseOf(s, u).key == PhaseOf(s, t).key ==>
        PhaseOf(s, u).mode == Shared && PhaseOf(s, t).mode == Shared
  {
    var p := PhaseOf(s, t);
    var l := p.lock;
    assert Counted(s, p.key) && s.locks[p.key] == l;
    forall u | PhaseOf(s, u).Holding? && PhaseOf(s, u).key == p.key ensures u in Holders(s, l, PhaseOf(s, u).mode) {
    }
    forall u, mode | u in Holders(s, l, mode) ensures PhaseOf(s, u).key == p.key {
    }
    if At(s, l).writer {
      var u :| u in Holders(s, l, Exclusive);
      assert PhaseOf(s, u).key == p.key;
    } else if At(s, l).readers != 0 {
      var u :| u in Holders(s, l, Shared);
      assert PhaseOf(s, u).key == p.key;
    }
  }

  lemma {:induction false} SubsetSize(a: set<Tid>, b: set<Tid>)
    requires a <= b
    ensures |a| <= |b|
  {
    if a != {} {
      var x :| x in a;
      SubsetSize(a - {x}, b - {x});
    }
  }

  /** An entry is in the map only while some thread references it. */
  lemma EntryHasUser(s: State, k: Key) returns (t: Tid)
    requires Inv(s) && k in s.locks
    ensures !PhaseOf(s, t).Idle? && PhaseOf(s, t).lock == s.locks[k]
  {
    assert Counted(s, k);
    assert Users(s, s.locks[k]) != {};
    t :| t in Users(s, s.locks[k]);
  }

  /** Whoever wants a lock, some user of that key can always move, whosever turn it is. */
  lemma LockProgress(s: State, t: Tid, turn: Turn) returns (step: Step)
    requires Inv(s) && !PhaseOf(s, t).Idle?
    ensures !step.TakeRef? && FairlyEnabled(s, step, turn)
    ensures PhaseOf(s, step.t).key == PhaseOf(s, t).key
  {
    var p := PhaseOf(s, t);
    var e := s.objects[p.lock];
    var first := if turn == Writers then Exclusive else Shared;
    assert Counted(s, p.key);
    if p.Holding? {
      step := Unlock(t);
    } else if p.Released? {
      step := DropRef(t);
    } else if e.writer || e.readers > 0 {
      var mode := if e.writer then Exclusive else Shared;
      assert Holders(s, p.lock, mode) != {};
      var u :| u in Holders(s, p.lock, mode);
      step := Unlock(u);
      assert s.locks[s.phase[u].key] == p.lock;
    } else if w :| w in s.phase && s.phase[w].Waiting? && s.phase[w].lock == p.lock && s.phase[w].mode == first {
      step := Acquire(w);
      assert s.locks[s.phase[w].key] == p.lock;
    } else {
      step := Acquire(t);
    }
  }

  // ---- Running one thread alone ----

  ghost predicate SamePhases(s: State, s': State, t: Tid) {
    forall u :: u != t ==> PhaseOf(s', u) == PhaseOf(s, u)
  }

  /** Nobody uses the lock of `key`. */
  ghost predicate Free(s: State, key: Key) {
    forall u :: !PhaseOf(s, u).Idle? ==> PhaseOf(s, u).key != key
  }

  // ---- The protocol changes the counts exactly as the object does ----

  ghost function Counts(s: State): map<Key, int>
    requires Mapped(s)
  {
    map k | k in s.locks :: s.objects[s.locks[k]].refs
  }

  lemma CountsAt(s: State, k: Key)
    requires Mapped(s)
    ensures k in Counts(s) <==> k in s.locks
    ensures k in s.locks ==> Counts(s)[k] == At(s, s.locks[k]).refs
  {
  }

  lemma TakeRefAt(s: State, t: Tid, key: Key, mode: Mode, k: Key)
    requires Inv(s) && Enabled(s, TakeRef(t, key, mode))
    ensures var s' := Next(s, TakeRef(t, key, mode));
      && (k in s'.locks <==> k in s.locks || k == key)
      && (k in s.locks ==> At(s', s'.locks[k]).refs == At(s, s.locks[k]).refs + if k == key then 1 else 0)
      && (k == key && k !in s.locks ==> At(s', s'.locks[k]).refs == 1)
  {
  }

  lemma TakeRefRaisesAt(s: State, t: Tid, key: Key, mode: Mode, k: Key)
    requires Inv(s) && Enabled(s, TakeRef(t, key, mode)) && Mapped(Next(s, TakeRef(t, key, mode)))
    ensures var c, c' := Raised(Counts(s), key), Counts(Next(s, TakeRef(t, key, mode)));
      (k in c' <==> k in c) && (k in c ==> c'[k] == c[k])
  {
    TakeRefAt(s, t, key, mode, k);
    CountsAt(s, k);
    CountsAt(Next(s, TakeRef(t, key, mode)), k);
  }

  lemma TakeRefRaises(s: State, t: Tid, key: Key, mode: Mode)
    requires Inv(s) && Enabled(s, TakeRef(t, key, mode))
    ensures Mapped(Next(s, TakeRef(t, key, mode)))
    ensures Counts(Next(s, TakeRef(t, key, mode))) == Raised(Counts(s), key)
  {
    StepMapped(s, TakeRef(t, key, mode));
    var c, c' := Raised(Counts(s), key), Counts(Next(s, TakeRef(t, key, mode)));
    forall k ensures (k in c' <==> k in c) && (k in c ==> c'[k] == c[k]) {
      TakeRefRaisesAt(s, t, key, mode, k);
    }
  }

  lemma DropRefAt(s: State, t: Tid, k: Key)
    requires Inv(s) && Enabled(s, DropRef(t))
    ensures var s' := Next(s, DropRef(t)); var key := PhaseOf(s, t).key;
      && key in s.locks
      && (k in s'.locks <==> k in s.locks && (k == key ==> At(s, s.locks[k]).refs != 1))
      && (k in s'.locks ==> s'.locks[k] == s.locks[k]
                            && At(s', s.locks[k]).refs == At(s, s.locks[k]).refs - if k == key then 1 else 0)
  {
  }

  lemma DropRefLowers(s: State, t: Tid)
    requires Inv(s) && Enabled(s, DropRef(t))
    ensures Mapped(Next(s, DropRef(t))) && PhaseOf(s, t).key in Counts(s)
    ensures Counts(Next(s, DropRef(t))) == Lowered(Counts(s), PhaseOf(s, t).key)
  {
    var s' := Next(s, DropRef(t));
    StepMapped(s, DropRef(t));
    var key := PhaseOf(s, t).key;
    DropRefAt(s, t, key);
    forall k
      ensures k in Counts(s') <==> k in Lowered(Counts(s), key)
      ensures k in Counts(s') ==> Counts(s')[k] == Lowered(Counts(s), key)[k]
    {
      DropRefAt(s, t, k);
      CountsAt(s, k);
      CountsAt(s', k);
    }
  }

  /** Acquiring and releasing the mutex of an entry leaves the counts alone. */
  lemma MutexKeepsCounts(s: State, step: Step)
    requires Inv(s) && Enabled(s, step) && (step.Acquire? || step.Unlock?)
    ensures Mapped(Next(s, step)) && Counts(Next(s, step)) == Counts(s)
  {
    StepMapped(s, step);
    assert forall k :: k in s.locks ==> Counts(Next(s, step))[k] == Counts(s)[k];
  }

  // ---- Whole runs ----

  predicate Legal(s: State, steps: seq<Step>)
    decreases |steps|
  {
    steps == [] || (Enabled(s, steps[0]) && Legal(Next(s, steps[0]), steps[1..]))
  }

  function Run(s: State, steps: seq<Step>): State
    requires Legal(s, steps)
    decreases |steps|
  {
    if steps == [] then s else Run(Next(s, steps[0]), steps[1..])
  }

  lemma {:induction false} RunInv(s: State, steps: seq<Step>)
    requires Inv(s) && Legal(s, steps)
    ensures Inv(Run(s, steps))
    decreases |steps|
  {
    if steps != [] {
      StepInv(s, steps[0]);
      RunInv(Next(s, steps[0]), steps[1..]);
    }
  }

  predicate SameKeyUsed(p: Phase, q: Phase) {
    !p.Idle? && !q.Idle? && p.key == q.key
  }

  predicate SameKeyHeld(p: Phase, q: Phase) {
    p.Holding? && q.Holding? && p.key == q.key
  }

  /** Over every interleaving: threads that use a key share one entry whose count is their number,
      and a writer is alone on its key. */
  lemma LockSafety(steps: seq<Step>)
    requires Legal(INIT, steps)
    ensures var s := Run(INIT, steps);
      && (forall t, u :: t in s.phase && u in s.phase && SameKeyUsed(s.phase[t], s.phase[u]) ==>
            s.phase[t].lock == s.phase[u].lock)
      && (forall t :: t in s.phase && !s.phase[t].Idle? ==>
            s.phase[t].lock in s.objects && s.objects[s.phase[t].lock].refs == |Users(s, s.phase[t].lock)|)
      && (forall t, u ::
            t in s.phase && u in s.phase && t != u && SameKeyHeld(s.phase[t], s.phase[u]) ==> s.phase[t].mode == Shared)
      && (s.locks != map[] ==> exists t :: t in s.phase && !s.phase[t].Idle?)
  {
    var s := Run(INIT, steps);
    RunInv(INIT, steps);
    forall t | t in s.phase && !s.phase[t].Idle?
      ensures s.phase[t].lock in s.objects && s.objects[s.phase[t].lock].refs == |Users(s, s.phase[t].lock)|
    {
      assert Counted(s, s.phase[t].key);
    }
    forall t, u | t in s.phase && u in s.phase && t != u && SameKeyHeld(s.phase[t], s.phase[u])
      ensures s.phase[t].mode == Shared
    {
      WriterExcludes(s, t, u);
    }
    if s.locks != map[] {
      var k :| k in s.locks;
      var t := EntryHasUser(s, k);
    }
  }
}
