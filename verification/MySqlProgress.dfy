/** Calls of the MySQL store end, whichever ids are in use: the locks do not care how MySQL compares them. */
module MySqlProgress {
  import opened Common
  import opened Pastes
  import opened MySqlStore
  import O = MySqlOnce
  import L = LockProtocol

  /** How far a program counter is from the end of its critical section. */
  function Rank(pc: Pc): nat {
    match pc
    case Enter => 10
    case Blocked => 9
    case Inside => 8
    case Opening(_, _) => 7
    case Serving(_, _, _) => 6
    case Consume(_, _) => 5
    case DropRow(_, _) => 5
    case Update => 5
    case Leave(_) => 4
    case Drop(_) => 3
    case Unlocked => 2
    case Finished(_) => 0
  }

  predicate UpgradesOnce(th: Thread) {
    (th.pc.Leave? || th.pc.Drop?) && th.pc.after.Upgrade? ==> !th.upgraded
  }

  /** The part of the invariant that is about locks only. */
  ghost predicate Inv(s: State) {
    && L.Inv(s.lk)
    && (forall t :: t in s.threads ==> O.Shape(s, t) && UpgradesOnce(s.threads[t]))
    && (forall t :: t !in s.threads ==> L.PhaseOf(s.lk, t).Idle?)
  }

  /** Only thread `t` moved. */
  ghost predicate Moves(s: State, s': State, t: Tid) {
    && t in s'.threads
    && (forall u :: u != t ==> (u in s.threads <==> u in s'.threads) && L.PhaseOf(s'.lk, u) == L.PhaseOf(s.lk, u))
    && (forall u :: u != t && u in s.threads ==> s'.threads[u] == s.threads[u])
  }

  lemma Lift(s: State, s': State, t: Tid)
    requires Inv(s) && Moves(s, s', t) && L.Inv(s'.lk) && O.Shape(s', t) && UpgradesOnce(s'.threads[t])
    ensures Inv(s')
  {
    forall u | u in s'.threads && u != t ensures O.Shape(s', u) && UpgradesOnce(s'.threads[u]) {
      assert O.Shape(s, u) && UpgradesOnce(s.threads[u]);
    }
  }

  lemma BeginInv(s: State, t: Tid, call: Call)
    requires Inv(s) && Enabled(s, Begin(t, call))
    ensures Inv(Next(s, Begin(t, call)))
  {
    if t in s.threads { assert O.Shape(s, t); }
    Lift(s, Next(s, Begin(t, call)), t);
  }

  lemma LockInv(s: State, t: Tid)
    requires Inv(s) && t in s.threads && LockStep(s, t).Some? && L.Enabled(s.lk, LockStep(s, t).value)
    ensures Inv(RunLock(s, t)) && Moves(s, RunLock(s, t), t)
  {
    L.StepInv(s.lk, LockStep(s, t).value);
    O.LockShape(s, t);
    O.LockQuiet(s, t);
    assert UpgradesOnce(s.threads[t]);
    Lift(s, RunLock(s, t), t);
  }

  lemma EffectShape(th: Thread, row: Option<Row>, nextGen: nat, now: int, ok: bool)
    requires !Lockless(th.call) && !th.pc.Enter? && !th.pc.Blocked? && !th.pc.Leave? && !th.pc.Drop? && !th.pc.Finished?
    ensures var pc := EffectOf(th, row, nextGen, now, ok).pc;
      && (if th.pc.Unlocked? then pc.Finished? else O.InSection(pc))
      && UpgradesOnce(th.(pc := pc)) && Rank(pc) < Rank(th.pc)
  {
  }

  lemma SqlMoves(s: State, t: Tid, now: int, ok: bool)
    requires t in s.threads && LockStep(s, t).None? && !s.threads[t].pc.Finished? && O.Shape(s, t)
    ensures var s' := RunSql(s, t, now, ok);
      Moves(s, s', t) && s'.lk == s.lk && O.Shape(s', t) && UpgradesOnce(s'.threads[t])
  {
    var th := s.threads[t];
    if !Lockless(th.call) {
      EffectShape(th, RowAt(s, KeyOf(Target(th.call))), |s.births|, now, ok);
    }
  }

  lemma SqlInv(s: State, t: Tid, now: int, ok: bool)
    requires Inv(s) && t in s.threads && LockStep(s, t).None? && !s.threads[t].pc.Finished?
    ensures Inv(RunSql(s, t, now, ok)) && Moves(s, RunSql(s, t, now, ok), t)
  {
    SqlMoves(s, t, now, ok);
    Lift(s, RunSql(s, t, now, ok), t);
  }

  lemma StepInv(s: State, step: Step)
    requires Inv(s) && Enabled(s, step)
    ensures Inv(Next(s, step))
  {
    match step
    case Begin(t, call) => BeginInv(s, t, call);
    case Run(t, now, ok) => if LockStep(s, t).Some? { LockInv(s, t); } else { SqlInv(s, t, now, ok); }
  }

  lemma {:induction false} RunInv(s: State, steps: seq<Step>)
    requires Inv(s) && Legal(s, steps)
    ensures Inv(RunAll(s, steps))
    decreases |steps|
  {
    if steps != [] {
      StepInv(s, steps[0]);
      RunInv(Next(s, steps[0]), steps[1..]);
    }
  }

  lemma AtRestInv(s: State)
    requires s.lk == L.INIT && s.threads == map[]
    ensures Inv(s)
  {
    L.InitInv();
  }

  // ---- Nobody is stuck ----

  /** No reachable state is stuck: with any call unfinished some thread can take a step, whichever of
      the waiting readers and writers the mutexes let go first. */
  lemma Progress(s: State, t: Tid, turn: L.Turn) returns (u: Tid)
    requires Inv(s) && t in s.threads && !s.threads[t].pc.Finished?
    ensures u in s.threads && !s.threads[u].pc.Finished?
    ensures LockStep(s, u).Some? ==> L.FairlyEnabled(s.lk, LockStep(s, u).value, turn)
  {
    assert O.Shape(s, t);
    u := t;
    if s.threads[t].pc.Blocked? {
      var step := L.LockProgress(s.lk, t, turn);
      u := step.t;
      assert O.Shape(s, u);
    }
  }

  /** When all calls have finished the lock map is empty. */
  lemma QuiescentStoreHoldsNoLock(s: State)
    requires Inv(s) && forall t :: t in s.threads ==> s.threads[t].pc.Finished?
    ensures s.lk.locks == map[]
  {
    forall t ensures L.PhaseOf(s.lk, t).Idle? {
      if t in s.threads { assert O.Shape(s, t); }
    }
    if s.lk.locks != map[] {
      var k :| k in s.lk.locks;
      var t := L.EntryHasUser(s.lk, k);
    }
  }

  // ---- Calls end ----

  function Distance(th: Thread): nat {
    (if th.upgraded then 0 else 12) + Rank(th.pc)
  }

  lemma LockLowers(s: State, t: Tid)
    requires t in s.threads && UpgradesOnce(s.threads[t])
    requires LockStep(s, t).Some? && L.Enabled(s.lk, LockStep(s, t).value)
    ensures Distance(RunLock(s, t).threads[t]) < Distance(s.threads[t])
  {
  }

  lemma SqlLowers(s: State, t: Tid, now: int, ok: bool)
    requires t in s.threads && LockStep(s, t).None? && !s.threads[t].pc.Finished? && O.Shape(s, t)
    ensures Distance(RunSql(s, t, now, ok).threads[t]) < Distance(s.threads[t])
  {
  }

  lemma RunLowers(s: State, t: Tid, now: int, ok: bool)
    requires Inv(s) && Enabled(s, Run(t, now, ok))
    ensures var s' := Next(s, Run(t, now, ok)); Moves(s, s', t) && Distance(s'.threads[t]) < Distance(s.threads[t])
  {
    assert O.Shape(s, t) && UpgradesOnce(s.threads[t]);
    if LockStep(s, t).Some? {
      LockInv(s, t);
      LockLowers(s, t);
    } else {
      SqlInv(s, t, now, ok);
      SqlLowers(s, t, now, ok);
    }
  }

  function Distances(s: State): map<Tid, nat> {
    map t | t in s.threads :: Distance(s.threads[t])
  }

  predicate NoNewCalls(steps: seq<Step>) {
    forall i :: 0 <= i < |steps| ==> steps[i].Run?
  }

  lemma StepLowers(s: State, step: Step, n: nat)
    requires Inv(s) && Enabled(s, step) && step.Run? && forall t :: t in s.threads ==> t < n
    ensures Inv(Next(s, step)) && forall t :: t in Next(s, step).threads ==> t < n
    ensures Total(Distances(Next(s, step)), n) < Total(Distances(s), n)
  {
    RunLowers(s, step.t, step.now, step.ok);
    StepInv(s, step);
    TotalDrops(Distances(s), Distances(Next(s, step)), n, step.t);
  }

  lemma {:induction false} RunsAreBounded(s: State, steps: seq<Step>, n: nat)
    requires Inv(s) && Legal(s, steps) && NoNewCalls(steps) && forall t :: t in s.threads ==> t < n
    ensures |steps| <= Total(Distances(s), n)
    decreases |steps|
  {
    if steps != [] {
      StepLowers(s, steps[0], n);
      assert forall i :: 0 <= i < |steps[1..]| ==> steps[1..][i] == steps[i + 1];
      RunsAreBounded(Next(s, steps[0]), steps[1..], n);
    }
  }

  /** Nobody can take a step, those refused a lock because it is the others' turn included. */
  ghost predicate CannotGoOn(s: State, turn: L.Turn) {
    forall t, now, ok :: Enabled(s, Run(t, now, ok)) ==>
      LockStep(s, t).Some? && !L.FairlyEnabled(s.lk, LockStep(s, t).value, turn)
  }

  /** From every reachable state: without new calls there are only finitely many steps, in whatever order
      the threads take them, and a run that cannot go on has finished every call and freed every lock. */
  lemma CallsEnd(s: State) returns (bound: nat)
    requires Inv(s)
    ensures forall steps :: Legal(s, steps) && NoNewCalls(steps) ==> |steps| <= bound
    ensures forall steps, turn :: Legal(s, steps) && NoNewCalls(steps) && CannotGoOn(RunAll(s, steps), turn) ==>
      (forall t :: t in RunAll(s, steps).threads ==> RunAll(s, steps).threads[t].pc.Finished?)
      && RunAll(s, steps).lk.locks == map[]
  {
    var n := Bounded(s.threads.Keys);
    bound := Total(Distances(s), n);
    forall steps | Legal(s, steps) && NoNewCalls(steps) ensures |steps| <= bound {
      RunsAreBounded(s, steps, n);
    }
    forall steps, turn | Legal(s, steps) && NoNewCalls(steps) && CannotGoOn(RunAll(s, steps), turn)
      ensures forall t :: t in RunAll(s, steps).threads ==> RunAll(s, steps).threads[t].pc.Finished?
      ensures RunAll(s, steps).lk.locks == map[]
    {
      RunInv(s, steps);
      AllFinished(RunAll(s, steps), turn);
      QuiescentStoreHoldsNoLock(RunAll(s, steps));
    }
  }

  lemma SomeoneGoesOn(s: State, t: Tid, turn: L.Turn)
    requires Inv(s) && t in s.threads && !s.threads[t].pc.Finished?
    ensures !CannotGoOn(s, turn)
  {
    var u := Progress(s, t, turn);
    assert Enabled(s, Run(u, 0, true));
  }

  lemma AllFinished(s: State, turn: L.Turn)
    requires Inv(s) && CannotGoOn(s, turn)
    ensures forall t :: t in s.threads ==> s.threads[t].pc.Finished?
  {
    forall t | t in s.threads ensures s.threads[t].pc.Finished? {
      if !s.threads[t].pc.Finished? {
        SomeoneGoesOn(s, t, turn);
      }
    }
  }
}
