/** Building runs of the MySQL store: one thread walks through a critical section of its call while
    nobody else is about the lock of its id. */
module MySqlRuns {
  import opened Common
  import opened Pastes
  import opened PasteHistory
  import opened MySqlStore
  import opened MySqlOnce
  import L = LockProtocol

  /** `steps` is a run from `s` to `r` whose calls use only `ids`. */
  ghost predicate Leads(s: State, steps: seq<Step>, r: State, ids: iset<Id>) {
    Legal(s, steps) && r == RunAll(s, steps) && AsksOnly(steps, ids)
  }

  lemma {:induction false} Append(s: State, first: seq<Step>, second: seq<Step>)
    requires Legal(s, first) && Legal(RunAll(s, first), second)
    ensures Legal(s, first + second) && RunAll(s, first + second) == RunAll(RunAll(s, first), second)
    decreases |first|
  {
    if first == [] {
      assert first + second == second;
    } else {
      assert (first + second)[0] == first[0] && (first + second)[1..] == first[1..] + second;
      Append(Next(s, first[0]), first[1..], second);
    }
  }

  lemma Chain(s: State, first: seq<Step>, q: State, second: seq<Step>, r: State, ids: iset<Id>)
    requires Leads(s, first, q, ids) && Leads(q, second, r, ids)
    ensures Leads(s, first + second, r, ids)
  {
    Append(s, first, second);
  }

  lemma One(s: State, step: Step, ids: iset<Id>)
    requires Enabled(s, step) && (step.Begin? && !Lockless(step.call) ==> step.call.id in ids)
    ensures Leads(s, [step], Next(s, step), ids)
  {
    assert [step][1..] == [];
  }

  function Tick(t: Tid): Step {
    Run(t, 0, true)
  }

  lemma LockTick(s: State, t: Tid, ids: iset<Id>)
    requires t in s.threads && LockStep(s, t).Some? && L.Enabled(s.lk, LockStep(s, t).value) && L.Inv(s.lk)
    ensures Leads(s, [Tick(t)], RunLock(s, t), ids)
    ensures L.Inv(RunLock(s, t).lk) && L.SamePhases(s.lk, RunLock(s, t).lk, t)
    ensures RunLock(s, t) == s.(lk := L.Next(s.lk, LockStep(s, t).value), threads := RunLock(s, t).threads)
  {
    One(s, Tick(t), ids);
    L.StepInv(s.lk, LockStep(s, t).value);
    L.PhaseAfter(s.lk, LockStep(s, t).value);
  }

  /** Nobody holds the lock of this thread, or it and all who hold it read. */
  ghost predicate Admitted(s: State, t: Tid)
    requires t in s.threads
  {
    var th := s.threads[t];
    forall u :: L.PhaseOf(s.lk, u).Holding? && L.PhaseOf(s.lk, u).key == Target(th.call) ==>
      L.PhaseOf(s.lk, u).mode == L.Shared && ModeOf(th) == L.Shared
  }

  lemma TakeTick(s: State, t: Tid, ids: iset<Id>) returns (r: State)
    requires t in s.threads && s.threads[t].pc.Enter? && L.Inv(s.lk) && L.PhaseOf(s.lk, t).Idle? && Admitted(s, t)
    ensures Leads(s, [Tick(t)], r, ids)
    ensures L.Inv(r.lk) && L.SamePhases(s.lk, r.lk, t) && L.PhaseOf(r.lk, t).Waiting? && L.Enabled(r.lk, L.Acquire(t))
    ensures var th, p := s.threads[t], L.PhaseOf(r.lk, t); p.key == Target(th.call) && p.mode == ModeOf(th)
    ensures r == s.(lk := r.lk, threads := s.threads[t := s.threads[t].(pc := Blocked)])
  {
    var th := s.threads[t];
    LockTick(s, t, ids);
    L.PhaseAfter(s.lk, L.TakeRef(t, Target(th.call), ModeOf(th)));
    r := RunLock(s, t);
    L.AcquiresIff(r.lk, t);
  }

  lemma AcquireTick(s: State, t: Tid, ids: iset<Id>) returns (r: State)
    requires t in s.threads && s.threads[t].pc.Blocked? && L.Inv(s.lk) && L.Enabled(s.lk, L.Acquire(t))
    ensures Leads(s, [Tick(t)], r, ids)
    ensures L.Inv(r.lk) && L.SamePhases(s.lk, r.lk, t) && L.PhaseOf(r.lk, t).Holding?
    ensures var p, q := L.PhaseOf(s.lk, t), L.PhaseOf(r.lk, t); q.key == p.key && q.mode == p.mode
    ensures r == s.(lk := r.lk, threads := s.threads[t := s.threads[t].(pc := Inside)])
  {
    LockTick(s, t, ids);
    L.PhaseAfter(s.lk, L.Acquire(t));
    r := RunLock(s, t);
  }

  /** A thread takes its lock, nobody being in its way. */
  lemma Take(s: State, t: Tid, ids: iset<Id>) returns (steps: seq<Step>, r: State)
    requires t in s.threads && s.threads[t].pc.Enter? && L.Inv(s.lk) && L.PhaseOf(s.lk, t).Idle? && Admitted(s, t)
    ensures Leads(s, steps, r, ids) && L.Inv(r.lk) && L.SamePhases(s.lk, r.lk, t)
    ensures r == s.(lk := r.lk, threads := s.threads[t := s.threads[t].(pc := Inside)])
    ensures var th, p := s.threads[t], L.PhaseOf(r.lk, t);
      p.Holding? && p.key == Target(th.call) && p.mode == ModeOf(th)
  {
    var s1 := TakeTick(s, t, ids);
    r := AcquireTick(s1, t, ids);
    Chain(s, [Tick(t)], s1, [Tick(t)], r, ids);
    steps := [Tick(t)] + [Tick(t)];
  }

  lemma UnlockTick(s: State, t: Tid, ids: iset<Id>) returns (r: State)
    requires t in s.threads && s.threads[t].pc.Leave? && L.Inv(s.lk) && L.PhaseOf(s.lk, t).Holding?
    ensures Leads(s, [Tick(t)], r, ids)
    ensures L.Inv(r.lk) && L.SamePhases(s.lk, r.lk, t) && L.PhaseOf(r.lk, t).Released?
    ensures r == s.(lk := r.lk, threads := s.threads[t := s.threads[t].(pc := Drop(s.threads[t].pc.after))])
  {
    LockTick(s, t, ids);
    L.PhaseAfter(s.lk, L.Unlock(t));
    r := RunLock(s, t);
  }

  lemma DropTick(s: State, t: Tid, th: Thread, after: After, ids: iset<Id>) returns (r: State)
    requires t in s.threads && s.threads[t] == th.(pc := Drop(after)) && L.Inv(s.lk) && L.PhaseOf(s.lk, t).Released?
    ensures Leads(s, [Tick(t)], r, ids)
    ensures L.Inv(r.lk) && L.SamePhases(s.lk, r.lk, t) && L.PhaseOf(r.lk, t).Idle?
    ensures r == s.(lk := r.lk, threads := s.threads[t := Resume(th, after)])
  {
    LockTick(s, t, ids);
    L.PhaseAfter(s.lk, L.DropRef(t));
    r := RunLock(s, t);
  }

  /** And gives it back. */
  lemma GiveBack(s: State, t: Tid, ids: iset<Id>) returns (steps: seq<Step>, r: State)
    requires t in s.threads && s.threads[t].pc.Leave? && L.Inv(s.lk) && L.PhaseOf(s.lk, t).Holding?
    ensures Leads(s, steps, r, ids) && L.Inv(r.lk) && L.SamePhases(s.lk, r.lk, t)
    ensures r == s.(lk := r.lk, threads := s.threads[t := Resume(s.threads[t], s.threads[t].pc.after)])
    ensures L.PhaseOf(r.lk, t).Idle?
  {
    var th := s.threads[t];
    var s1 := UnlockTick(s, t, ids);
    r := DropTick(s1, t, th, th.pc.after, ids);
    Chain(s, [Tick(t)], s1, [Tick(t)], r, ids);
    steps := [Tick(t)] + [Tick(t)];
  }

  /** A statement or decision inside the critical section. */
  lemma Statement(s: State, t: Tid, ids: iset<Id>)
    requires t in s.threads && InSection(s.threads[t].pc) && !s.threads[t].pc.Leave? && !Lockless(s.threads[t].call)
    ensures Leads(s, [Tick(t)], RunSql(s, t, 0, true), ids)
  {
    One(s, Tick(t), ids);
  }

  /** A call begins and takes its lock. */
  lemma Start(s: State, t: Tid, call: Call, ids: iset<Id>) returns (steps: seq<Step>, r: State)
    requires t !in s.threads && L.Inv(s.lk) && L.PhaseOf(s.lk, t).Idle? && L.Free(s.lk, Target(call))
    requires !Lockless(call) && Accepted(call) && call.id in ids
    ensures Leads(s, steps, r, ids) && L.Inv(r.lk) && L.SamePhases(s.lk, r.lk, t)
    ensures r == s.(lk := r.lk, threads := s.threads[t := Thread(call, false, Inside)])
    ensures L.PhaseOf(r.lk, t).Holding? && L.PhaseOf(r.lk, t).key == call.id
  {
    var s0 := Next(s, Begin(t, call));
    One(s, Begin(t, call), ids);
    var rest;
    rest, r := Take(s0, t, ids);
    Chain(s, [Begin(t, call)], s0, rest, r, ids);
    steps := [Begin(t, call)] + rest;
    assert r.threads == s.threads[t := Thread(call, false, Inside)];
  }

  /** A call begins and makes its first decision. */
  lemma Decided(s: State, t: Tid, call: Call, ids: iset<Id>, e: Effect) returns (steps: seq<Step>, r: State)
    requires t !in s.threads && L.Inv(s.lk) && L.PhaseOf(s.lk, t).Idle? && L.Free(s.lk, Target(call))
    requires !Lockless(call) && Accepted(call) && call.id in ids
    requires e == EffectOf(Thread(call, false, Inside), RowAt(s, KeyOf(call.id)), |s.births|, 0, true)
    ensures Leads(s, steps, r, ids) && L.Inv(r.lk) && L.SamePhases(s.lk, r.lk, t)
    ensures L.PhaseOf(r.lk, t).Holding? && L.PhaseOf(r.lk, t).key == call.id
    ensures r.threads == s.threads[t := Thread(call, false, e.pc)]
    ensures r.rows ==
      match e.row
      case Keep => s.rows
      case Remove => s.rows - {KeyOf(call.id)}
      case Put(row) => s.rows[KeyOf(call.id) := row]
    ensures r.births == if e.birth.Some? then s.births + [e.birth.value] else s.births
    ensures r.log == if e.event.Some? then s.log + [e.event.value] else s.log
    ensures r.loose == if e.taint.Some? then s.loose + {e.taint.value} else s.loose
  {
    var first, s1 := Start(s, t, call, ids);
    Statement(s1, t, ids);
    r := RunSql(s1, t, 0, true);
    Chain(s, first, s1, [Tick(t)], r, ids);
    steps := first + [Tick(t)];
    assert r.threads == s.threads[t := Thread(call, false, e.pc)];
  }

  // ---- A whole critical section, seen from its row ----

  /** Where a thread is, and the row of its key. */
  datatype Scene = Scene(pc: Pc, row: Option<Row>, births: seq<Birth>, log: seq<Event>)

  function SceneOf(s: State, t: Tid): Scene
    requires t in s.threads
  {
    Scene(s.threads[t].pc, RowAt(s, KeyOf(Target(s.threads[t].call))), s.births, s.log)
  }

  function Became(c: Scene, e: Effect): Scene {
    Scene(e.pc, Applied(c.row, e.row), if e.birth.Some? then c.births + [e.birth.value] else c.births,
          if e.event.Some? then c.log + [e.event.value] else c.log)
  }

  function Act(th: Thread, c: Scene, now: int, ok: bool): Scene {
    Became(c, EffectOf(th.(pc := c.pc), c.row, |c.births|, now, ok))
  }

  /** At most `n` statements and decisions, up to the unlock. */
  function Play(th: Thread, c: Scene, now: int, ok: bool, n: nat): Scene
    decreases n
  {
    if n == 0 || c.pc.Leave? then c else Play(th, Act(th, c, now, ok), now, ok, n - 1)
  }

  /** The thread gets from `c` to its unlock at `end`. */
  ghost predicate Gets(th: Thread, c: Scene, now: int, ok: bool, end: Scene) {
    end.pc.Leave? && exists n: nat :: end == Play(th, c, now, ok, n)
  }

  /** One more step, where a section has not yet come to its end. */
  function On(th: Thread, c: Scene, now: int, ok: bool): Scene {
    if c.pc.Leave? then c else Act(th, c, now, ok)
  }

  lemma EndGets(th: Thread, c: Scene, now: int, ok: bool)
    requires c.pc.Leave?
    ensures Gets(th, c, now, ok, c)
  {
    assert Play(th, c, now, ok, 0) == c;
  }

  lemma OnGets(th: Thread, c: Scene, now: int, ok: bool, end: Scene)
    requires Gets(th, On(th, c, now, ok), now, ok, end)
    ensures Gets(th, c, now, ok, end)
  {
    if !c.pc.Leave? {
      var n: nat :| end == Play(th, Act(th, c, now, ok), now, ok, n);
      assert Play(th, c, now, ok, n + 1) == end;
    }
  }

  /** A section of at most two steps. */
  lemma TwoGets(th: Thread, c: Scene, now: int, ok: bool) returns (end: Scene)
    requires On(th, On(th, c, now, ok), now, ok).pc.Leave?
    ensures end == On(th, On(th, c, now, ok), now, ok) && Gets(th, c, now, ok, end)
  {
    var c1 := On(th, c, now, ok);
    end := On(th, c1, now, ok);
    EndGets(th, end, now, ok);
    OnGets(th, c1, now, ok, end);
    OnGets(th, c, now, ok, end);
  }

  /** From `s` to `r` only thread `t` has moved, and only the row of key `k` has changed. */
  ghost predicate Only(s: State, r: State, t: Tid, k: RowKey) {
    t in r.threads && r.threads == s.threads[t := r.threads[t]] && forall j :: j != k ==> RowAt(r, j) == RowAt(s, j)
  }

  lemma OnlyThen(s: State, q: State, r: State, t: Tid, k: RowKey)
    requires Only(s, q, t, k) && Only(q, r, t, k)
    ensures Only(s, r, t, k)
  {
  }

  lemma ActStaysInside(th: Thread, c: Scene, now: int, ok: bool)
    requires InSection(c.pc) && !Lockless(th.call)
    ensures InSection(Act(th, c, now, ok).pc)
  {
  }

  lemma CommitScene(s: State, t: Tid, e: Effect)
    requires t in s.threads
    ensures Only(s, Commit(s, t, e), t, KeyOf(Target(s.threads[t].call)))
    ensures Commit(s, t, e).threads[t] == s.threads[t].(pc := e.pc) && Commit(s, t, e).lk == s.lk
    ensures SceneOf(Commit(s, t, e), t) == Became(SceneOf(s, t), e)
  {
  }

  lemma SqlTick(s: State, t: Tid, now: int, ok: bool, ids: iset<Id>) returns (r: State)
    requires t in s.threads && LockStep(s, t).None? && !s.threads[t].pc.Finished? && !Lockless(s.threads[t].call)
    ensures Leads(s, [Run(t, now, ok)], r, ids) && r.lk == s.lk && Only(s, r, t, KeyOf(Target(s.threads[t].call)))
    ensures r.threads[t] == s.threads[t].(pc := r.threads[t].pc)
    ensures SceneOf(r, t) == Act(s.threads[t], SceneOf(s, t), now, ok)
  {
    var th := s.threads[t];
    assert th.(pc := SceneOf(s, t).pc) == th;
    CommitScene(s, t, EffectOf(th, RowAt(s, KeyOf(Target(th.call))), |s.births|, now, ok));
    One(s, Run(t, now, ok), ids);
    r := RunSql(s, t, now, ok);
  }

  /** What the thread does depends on its call, on whether it has upgraded, and on the scene. */
  lemma {:induction false} SamePlay(th: Thread, th': Thread, c: Scene, now: int, ok: bool, n: nat)
    requires th'.call == th.call && th'.upgraded == th.upgraded
    ensures Play(th', c, now, ok, n) == Play(th, c, now, ok, n)
    decreases n
  {
    if n > 0 && !c.pc.Leave? {
      assert th'.(pc := c.pc) == th.(pc := c.pc);
      SamePlay(th, th', Act(th, c, now, ok), now, ok, n - 1);
    }
  }

  lemma {:induction false} Plays(s: State, t: Tid, now: int, ok: bool, n: nat, ids: iset<Id>)
    returns (steps: seq<Step>, r: State)
    requires t in s.threads && InSection(s.threads[t].pc) && !Lockless(s.threads[t].call)
    ensures Leads(s, steps, r, ids) && r.lk == s.lk && Only(s, r, t, KeyOf(Target(s.threads[t].call)))
    ensures r.threads[t] == s.threads[t].(pc := r.threads[t].pc)
    ensures SceneOf(r, t) == Play(s.threads[t], SceneOf(s, t), now, ok, n)
    decreases n
  {
    var th := s.threads[t];
    if n == 0 || th.pc.Leave? {
      steps, r := [], s;
    } else {
      ActStaysInside(th, SceneOf(s, t), now, ok);
      var s1 := SqlTick(s, t, now, ok, ids);
      SamePlay(th, s1.threads[t], SceneOf(s1, t), now, ok, n - 1);
      var rest;
      rest, r := Plays(s1, t, now, ok, n - 1, ids);
      Chain(s, [Run(t, now, ok)], s1, rest, r, ids);
      OnlyThen(s, s1, r, t, KeyOf(Target(th.call)));
      steps := [Run(t, now, ok)] + rest;
    }
  }

  /** From the lock to the end of the section's work. */
  lemma Works(s: State, t: Tid, now: int, ok: bool, end: Scene, ids: iset<Id>) returns (steps: seq<Step>, r: State)
    requires t in s.threads && s.threads[t].pc.Inside? && !Lockless(s.threads[t].call)
    requires Gets(s.threads[t], SceneOf(s, t), now, ok, end)
    ensures Leads(s, steps, r, ids) && r.lk == s.lk && Only(s, r, t, KeyOf(Target(s.threads[t].call)))
    ensures r.threads[t] == s.threads[t].(pc := end.pc) && SceneOf(r, t) == end
  {
    var n: nat :| end == Play(s.threads[t], SceneOf(s, t), now, ok, n);
    steps, r := Plays(s, t, now, ok, n, ids);
    assert SceneOf(r, t).pc == r.threads[t].pc;
  }

  lemma SameGets(th: Thread, th': Thread, c: Scene, now: int, ok: bool, end: Scene)
    requires th'.call == th.call && th'.upgraded == th.upgraded && Gets(th, c, now, ok, end)
    ensures Gets(th', c, now, ok, end)
  {
    var n: nat :| end == Play(th, c, now, ok, n);
    SamePlay(th, th', c, now, ok, n);
  }

  lemma OnlyThread(s: State, r: State, t: Tid, k: RowKey)
    requires t in r.threads && r == s.(lk := r.lk, threads := s.threads[t := r.threads[t]])
    ensures Only(s, r, t, k)
  {
  }

  /** One critical section of a thread, from its lock to its unlock, nobody else about its lock. */
  lemma Section(s: State, t: Tid, now: int, ok: bool, end: Scene, ids: iset<Id>) returns (steps: seq<Step>, r: State)
    requires t in s.threads && s.threads[t].pc.Enter? && !Lockless(s.threads[t].call)
    requires L.Inv(s.lk) && L.PhaseOf(s.lk, t).Idle? && L.Free(s.lk, Target(s.threads[t].call))
    requires Gets(s.threads[t], SceneOf(s, t).(pc := Inside), now, ok, end)
    ensures Leads(s, steps, r, ids) && Only(s, r, t, KeyOf(Target(s.threads[t].call)))
    ensures L.Inv(r.lk) && L.SamePhases(s.lk, r.lk, t) && L.PhaseOf(r.lk, t).Idle?
    ensures r.threads[t] == Resume(s.threads[t].(pc := end.pc), end.pc.after)
    ensures RowAt(r, KeyOf(Target(s.threads[t].call))) == end.row && r.births == end.births && r.log == end.log
  {
    var th := s.threads[t];
    var k := KeyOf(Target(th.call));
    var first, s1 := Take(s, t, ids);
    assert SceneOf(s1, t) == SceneOf(s, t).(pc := Inside);
    SameGets(th, s1.threads[t], SceneOf(s1, t), now, ok, end);
    var second, s2 := Works(s1, t, now, ok, end, ids);
    Chain(s, first, s1, second, s2, ids);
    var third;
    third, r := GiveBack(s2, t, ids);
    Chain(s, first + second, s2, third, r, ids);
    OnlyThread(s, s1, t, k);
    OnlyThread(s2, r, t, k);
    OnlyThen(s, s1, s2, t, k);
    OnlyThen(s, s2, r, t, k);
    steps := first + second + third;
  }

  lemma Begins(s: State, t: Tid, call: Call, ids: iset<Id>) returns (r: State)
    requires (t in s.threads ==> s.threads[t].pc.Finished?) && (Lockless(call) || call.id in ids)
    ensures Leads(s, [Begin(t, call)], r, ids)
    ensures r == s.(threads := s.threads[t := Thread(call, false, FirstPc(call))])
  {
    One(s, Begin(t, call), ids);
    r := Next(s, Begin(t, call));
  }
}
