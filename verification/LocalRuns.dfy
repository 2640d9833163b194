/** Building runs of the local store: one thread walks through a critical section of its call while
    nobody else is in one. */
module LocalRuns {
  import opened Common
  import opened Pastes
  import opened PasteHistory
  import opened LocalStore
  import opened LocalStoreInv
  import T = LocalStoreTheorems
  import L = LockProtocol

  /** `steps` is a run from `s` to `r`. */
  ghost predicate Leads(s: State, steps: seq<Step>, r: State) {
    T.Legal(s, steps) && r == T.Run(s, steps)
  }

  lemma {:induction false} Append(s: State, first: seq<Step>, second: seq<Step>)
    requires T.Legal(s, first) && T.Legal(T.Run(s, first), second)
    ensures T.Legal(s, first + second) && T.Run(s, first + second) == T.Run(T.Run(s, first), second)
    decreases |first|
  {
    if first == [] {
      assert first + second == second;
    } else {
      assert (first + second)[0] == first[0] && (first + second)[1..] == first[1..] + second;
      Append(Next(s, first[0]), first[1..], second);
    }
  }

  lemma Chain(s: State, first: seq<Step>, q: State, second: seq<Step>, r: State)
    requires Leads(s, first, q) && Leads(q, second, r)
    ensures Leads(s, first + second, r)
  {
    Append(s, first, second);
  }

  lemma One(s: State, step: Step)
    requires Enabled(s, step)
    ensures Leads(s, [step], Next(s, step))
  {
    assert [step][1..] == [];
  }

  // ---- Taking and giving back a lock that nobody else wants ----

  /** Nobody is between taking and dropping a reference. */
  ghost predicate Unlocked(s: State) {
    L.Inv(s.lk) && forall u :: L.PhaseOf(s.lk, u).Idle?
  }

  /** `t` holds its lock, and nobody else has to do with one. */
  ghost predicate Alone(s: State, t: Tid) {
    L.Inv(s.lk) && L.PhaseOf(s.lk, t).Holding? && forall u :: u != t ==> L.PhaseOf(s.lk, u).Idle?
  }

  lemma LockTick(s: State, t: Tid, now: int)
    requires t in s.threads && LockStep(s, t).Some? && L.Enabled(s.lk, LockStep(s, t).value) && L.Inv(s.lk)
    ensures Leads(s, [Run(t, now, true)], RunLock(s, t))
    ensures L.Inv(RunLock(s, t).lk) && L.SamePhases(s.lk, RunLock(s, t).lk, t)
  {
    One(s, Run(t, now, true));
    LockMoves(s, t);
  }

  lemma LockMoves(s: State, t: Tid)
    requires t in s.threads && LockStep(s, t).Some? && L.Enabled(s.lk, LockStep(s, t).value) && L.Inv(s.lk)
    ensures L.Inv(RunLock(s, t).lk) && L.SamePhases(s.lk, RunLock(s, t).lk, t)
  {
    var step := LockStep(s, t).value;
    L.StepInv(s.lk, step);
    L.PhaseAfter(s.lk, step);
    assert RunLock(s, t).lk == L.Next(s.lk, step) && step.t == t;
  }

  /** Nobody holds the key of this thread, or it and all who hold it read. */
  ghost predicate Admitted(s: State, t: Tid)
    requires t in s.threads
  {
    var th := s.threads[t];
    forall u :: L.PhaseOf(s.lk, u).Holding? && L.PhaseOf(s.lk, u).key == Target(th.call) ==>
      L.PhaseOf(s.lk, u).mode == L.Shared && ModeOf(th) == L.Shared
  }

  lemma TakeTick(s: State, t: Tid, now: int) returns (r: State)
    requires t in s.threads && s.threads[t].pc.Enter? && L.Inv(s.lk) && L.PhaseOf(s.lk, t).Idle? && Admitted(s, t)
    ensures Leads(s, [Run(t, now, true)], r)
    ensures L.Inv(r.lk) && L.SamePhases(s.lk, r.lk, t) && L.PhaseOf(r.lk, t).Waiting? && L.Enabled(r.lk, L.Acquire(t))
    ensures var th, p := s.threads[t], L.PhaseOf(r.lk, t); p.key == Target(th.call) && p.mode == ModeOf(th)
    ensures r == s.(lk := r.lk, threads := s.threads[t := s.threads[t].(pc := Blocked)])
  {
    var th := s.threads[t];
    LockTick(s, t, now);
    L.PhaseAfter(s.lk, L.TakeRef(t, Target(th.call), ModeOf(th)));
    r := RunLock(s, t);
    L.AcquiresIff(r.lk, t);
  }

  lemma AcquireTick(s: State, t: Tid, now: int) returns (r: State)
    requires t in s.threads && s.threads[t].pc.Blocked? && L.Inv(s.lk) && L.Enabled(s.lk, L.Acquire(t))
    ensures Leads(s, [Run(t, now, true)], r)
    ensures L.Inv(r.lk) && L.SamePhases(s.lk, r.lk, t) && L.PhaseOf(r.lk, t).Holding?
    ensures var p, q := L.PhaseOf(s.lk, t), L.PhaseOf(r.lk, t); q.key == p.key && q.mode == p.mode
    ensures r == s.(lk := r.lk, threads := s.threads[t := s.threads[t].(pc := Inside)])
  {
    LockTick(s, t, now);
    L.PhaseAfter(s.lk, L.Acquire(t));
    r := RunLock(s, t);
  }

  /** A thread takes its lock, nobody being in its way. */
  lemma Take(s: State, t: Tid, now: int) returns (steps: seq<Step>, r: State)
    requires t in s.threads && s.threads[t].pc.Enter? && L.Inv(s.lk) && L.PhaseOf(s.lk, t).Idle? && Admitted(s, t)
    ensures Leads(s, steps, r) && L.Inv(r.lk) && L.SamePhases(s.lk, r.lk, t)
    ensures var th, p := s.threads[t], L.PhaseOf(r.lk, t);
      p.Holding? && p.key == Target(th.call) && p.mode == ModeOf(th)
    ensures r == s.(lk := r.lk, threads := s.threads[t := s.threads[t].(pc := Inside)])
  {
    var s1 := TakeTick(s, t, now);
    r := AcquireTick(s1, t, now);
    Chain(s, [Run(t, now, true)], s1, [Run(t, now, true)], r);
    steps := [Run(t, now, true)] + [Run(t, now, true)];
  }

  lemma TakeAlone(s: State, t: Tid, now: int) returns (steps: seq<Step>, r: State)
    requires t in s.threads && s.threads[t].pc.Enter? && Unlocked(s)
    ensures Leads(s, steps, r) && Alone(r, t)
    ensures r == s.(lk := r.lk, threads := s.threads[t := s.threads[t].(pc := Inside)])
  {
    steps, r := Take(s, t, now);
  }

  lemma UnlockTick(s: State, t: Tid, now: int) returns (r: State)
    requires t in s.threads && s.threads[t].pc.Leave? && L.Inv(s.lk) && L.PhaseOf(s.lk, t).Holding?
    ensures Leads(s, [Run(t, now, true)], r)
    ensures L.Inv(r.lk) && L.SamePhases(s.lk, r.lk, t) && L.PhaseOf(r.lk, t).Released?
    ensures r == s.(lk := r.lk, threads := s.threads[t := s.threads[t].(pc := Drop(s.threads[t].pc.after))])
  {
    LockTick(s, t, now);
    L.PhaseAfter(s.lk, L.Unlock(t));
    r := RunLock(s, t);
  }

  lemma DropTick(s: State, t: Tid, th: Thread, after: After, now: int) returns (r: State)
    requires t in s.threads && s.threads[t] == th.(pc := Drop(after)) && L.Inv(s.lk) && L.PhaseOf(s.lk, t).Released?
    ensures Leads(s, [Run(t, now, true)], r)
    ensures L.Inv(r.lk) && L.SamePhases(s.lk, r.lk, t) && L.PhaseOf(r.lk, t).Idle?
    ensures r == s.(lk := r.lk, threads := s.threads[t := Resume(th.(pc := Drop(after)), after)])
  {
    LockTick(s, t, now);
    L.PhaseAfter(s.lk, L.DropRef(t));
    r := RunLock(s, t);
  }

  /** And gives it back. */
  lemma GiveBack(s: State, t: Tid, now: int) returns (steps: seq<Step>, r: State)
    requires t in s.threads && s.threads[t].pc.Leave? && Alone(s, t)
    ensures Leads(s, steps, r) && Unlocked(r)
    ensures var th, after := s.threads[t], s.threads[t].pc.after;
      r == s.(lk := r.lk, threads := s.threads[t := Resume(th.(pc := Drop(after)), after)])
  {
    var th := s.threads[t];
    var s1 := UnlockTick(s, t, now);
    r := DropTick(s1, t, th, th.pc.after, now);
    Chain(s, [Run(t, now, true)], s1, [Run(t, now, true)], r);
    steps := [Run(t, now, true)] + [Run(t, now, true)];
  }

  // ---- A whole critical section, seen from its key ----

  /** Where a thread is, and the two files of its key. */
  datatype Scene = Scene(pc: Pc, file: Option<File>, meta: Option<Metadata>, births: seq<Birth>, log: seq<Event>)

  function SceneOf(s: State, t: Tid): Scene
    requires t in s.threads
  {
    var k := Target(s.threads[t].call);
    Scene(s.threads[t].pc, FileAt(s, k), MetaAt(s, k), s.births, s.log)
  }

  function Became(call: Call, c: Scene, e: Effect): Scene {
    Scene(e.pc, Applied(c.file, e.content), Applied(c.meta, e.sidecar),
          if e.claims && call.Create? then c.births + [Birth(Target(call), call.source)] else c.births,
          if e.event.Some? then c.log + [e.event.value] else c.log)
  }

  function Act(th: Thread, t: Tid, c: Scene, now: int, ok: bool): Scene {
    Became(th.call, c, EffectOf(th.(pc := c.pc), t, c.file, c.meta, |c.births|, now, ok))
  }

  /** At most `n` file steps and decisions, up to the unlock. */
  function Play(th: Thread, t: Tid, c: Scene, now: int, ok: bool, n: nat): Scene
    decreases n
  {
    if n == 0 || c.pc.Leave? then c else Play(th, t, Act(th, t, c, now, ok), now, ok, n - 1)
  }

  /** The thread gets from `c` to its unlock at `end`. */
  ghost predicate Gets(th: Thread, t: Tid, c: Scene, now: int, ok: bool, end: Scene) {
    end.pc.Leave? && exists n: nat :: end == Play(th, t, c, now, ok, n)
  }

  lemma StepGets(th: Thread, t: Tid, c: Scene, now: int, ok: bool, end: Scene)
    requires !c.pc.Leave? && Gets(th, t, Act(th, t, c, now, ok), now, ok, end)
    ensures Gets(th, t, c, now, ok, end)
  {
    var n: nat :| end == Play(th, t, Act(th, t, c, now, ok), now, ok, n);
    assert Play(th, t, c, now, ok, n + 1) == end;
  }

  /** The end of a section that is over, or has both files left to remove. */
  function Tail(call: Call, c: Scene): Scene {
    if c.pc.Purge? then Scene(Leave(Done(call, false)), None, None, c.births, c.log)
    else if c.pc.Erase? then Scene(Leave(Done(call, true)), None, None, c.births, c.log)
    else c
  }

  lemma TailGets(th: Thread, t: Tid, c: Scene, now: int, ok: bool)
    requires c.pc.Leave? || c.pc.Purge? || c.pc.Erase?
    ensures Gets(th, t, c, now, ok, Tail(th.call, c))
  {
    if c.pc.Leave? {
      assert Play(th, t, c, now, ok, 0) == c;
    } else {
      var c1 := Act(th, t, c, now, ok);
      var c2 := Act(th, t, c1, now, ok);
      assert c2 == Tail(th.call, c);
      assert Play(th, t, c2, now, ok, 0) == c2;
      StepGets(th, t, c1, now, ok, c2);
      StepGets(th, t, c, now, ok, c2);
    }
  }

  /** One more step, where a section has not yet come to an end or to its removals. */
  function On(th: Thread, t: Tid, c: Scene, now: int, ok: bool): Scene {
    if c.pc.Leave? || c.pc.Purge? || c.pc.Erase? then c else Act(th, t, c, now, ok)
  }

  lemma OnGets(th: Thread, t: Tid, c: Scene, now: int, ok: bool, end: Scene)
    requires Gets(th, t, On(th, t, c, now, ok), now, ok, end)
    ensures Gets(th, t, c, now, ok, end)
  {
    if On(th, t, c, now, ok) != c {
      StepGets(th, t, c, now, ok, end);
    }
  }

  /** A section of at most two steps and removals. */
  lemma TwoGets(th: Thread, t: Tid, c: Scene, now: int, ok: bool) returns (end: Scene)
    requires Tail(th.call, On(th, t, On(th, t, c, now, ok), now, ok)).pc.Leave?
    ensures end == Tail(th.call, On(th, t, On(th, t, c, now, ok), now, ok)) && Gets(th, t, c, now, ok, end)
  {
    var c1 := On(th, t, c, now, ok);
    end := Tail(th.call, On(th, t, c1, now, ok));
    TailGets(th, t, On(th, t, c1, now, ok), now, ok);
    OnGets(th, t, c1, now, ok, end);
    OnGets(th, t, c, now, ok, end);
  }

  /** Every record at hand is the one of this key, as in every reachable state. */
  predicate Filed(th: Thread, c: Scene) {
    && (c.meta.Some? ==> c.meta.value.id == Target(th.call))
    && (c.pc.Writing? ==> c.pc.meta.id == Target(th.call))
    && (th.stage.Relabel? ==> th.stage.meta.id == Target(th.call))
  }

  /** From `s` to `r` only thread `t` has moved, and only files of `k` have changed. */
  ghost predicate Only(s: State, r: State, t: Tid, k: Key) {
    && t in r.threads && r.threads == s.threads[t := r.threads[t]]
    && (forall j :: j != k ==> FileAt(r, j) == FileAt(s, j) && MetaAt(r, j) == MetaAt(s, j))
  }

  lemma OnlyThread(s: State, r: State, t: Tid, k: Key)
    requires t in r.threads && r == s.(lk := r.lk, threads := s.threads[t := r.threads[t]])
    ensures Only(s, r, t, k)
  {
  }

  lemma OnlyThen(s: State, q: State, r: State, t: Tid, k: Key)
    requires Only(s, q, t, k) && Only(q, r, t, k)
    ensures Only(s, r, t, k)
  {
  }

  lemma ActKeeps(th: Thread, t: Tid, c: Scene, now: int, ok: bool)
    requires InSection(c.pc) && !c.pc.Leave? && Filed(th, c)
    ensures InSection(Act(th, t, c, now, ok).pc) && Filed(th, Act(th, t, c, now, ok))
  {
  }

  lemma PutsOwnRecord(th: Thread, t: Tid, c: Scene, now: int, ok: bool)
    requires Filed(th, c)
    ensures var e := EffectOf(th.(pc := c.pc), t, c.file, c.meta, |c.births|, now, ok);
      e.sidecar.Put? ==> e.sidecar.value.id == Target(th.call)
  {
  }

  lemma CommitScene(s: State, t: Tid, e: Effect)
    requires t in s.threads && (e.sidecar.Put? ==> e.sidecar.value.id == Target(s.threads[t].call))
    ensures Only(s, Commit(s, t, e), t, Target(s.threads[t].call))
    ensures Commit(s, t, e).threads[t] == s.threads[t].(pc := e.pc) && Commit(s, t, e).lk == s.lk
    ensures SceneOf(Commit(s, t, e), t) == Became(s.threads[t].call, SceneOf(s, t), e)
  {
  }

  lemma FileTick(s: State, t: Tid, now: int, ok: bool) returns (r: State)
    requires t in s.threads && LockStep(s, t).None? && !s.threads[t].pc.Finished?
    requires Filed(s.threads[t], SceneOf(s, t))
    ensures Leads(s, [Run(t, now, ok)], r) && r.lk == s.lk && Only(s, r, t, Target(s.threads[t].call))
    ensures r.threads[t] == s.threads[t].(pc := r.threads[t].pc)
    ensures SceneOf(r, t) == Act(s.threads[t], t, SceneOf(s, t), now, ok)
  {
    var th, k := s.threads[t], Target(s.threads[t].call);
    PutsOwnRecord(th, t, SceneOf(s, t), now, ok);
    assert th.(pc := SceneOf(s, t).pc) == th;
    CommitScene(s, t, EffectOf(th, t, FileAt(s, k), MetaAt(s, k), |s.births|, now, ok));
    One(s, Run(t, now, ok));
    r := RunFile(s, t, now, ok);
  }

  /** A file step inside a section leads to another moment inside it. */
  lemma InsideTick(s: State, t: Tid, now: int, ok: bool) returns (r: State)
    requires t in s.threads && InSection(s.threads[t].pc) && !s.threads[t].pc.Leave?
    requires Filed(s.threads[t], SceneOf(s, t))
    ensures Leads(s, [Run(t, now, ok)], r) && r.lk == s.lk && Only(s, r, t, Target(s.threads[t].call))
    ensures r.threads[t] == s.threads[t].(pc := r.threads[t].pc) && InSection(r.threads[t].pc)
    ensures SceneOf(r, t) == Act(s.threads[t], t, SceneOf(s, t), now, ok) && Filed(r.threads[t], SceneOf(r, t))
  {
    ActKeeps(s.threads[t], t, SceneOf(s, t), now, ok);
    r := FileTick(s, t, now, ok);
    assert SceneOf(r, t).pc == r.threads[t].pc;
  }

  lemma {:induction false} Plays(s: State, t: Tid, now: int, ok: bool, n: nat) returns (steps: seq<Step>, r: State)
    requires t in s.threads && InSection(s.threads[t].pc) && Filed(s.threads[t], SceneOf(s, t))
    ensures Leads(s, steps, r) && r.lk == s.lk && Only(s, r, t, Target(s.threads[t].call))
    ensures r.threads[t] == s.threads[t].(pc := r.threads[t].pc)
    ensures SceneOf(r, t) == Play(s.threads[t], t, SceneOf(s, t), now, ok, n)
    decreases n
  {
    var th := s.threads[t];
    if n == 0 || th.pc.Leave? {
      steps, r := [], s;
    } else {
      var s1 := InsideTick(s, t, now, ok);
      SamePlay(th, s1.threads[t], t, SceneOf(s1, t), now, ok, n - 1);
      var rest;
      rest, r := Plays(s1, t, now, ok, n - 1);
      Chain(s, [Run(t, now, ok)], s1, rest, r);
      OnlyThen(s, s1, r, t, Target(th.call));
      steps := [Run(t, now, ok)] + rest;
    }
  }

  /** What the thread does depends on its call, its stage and the scene. */
  lemma {:induction false} SamePlay(th: Thread, th': Thread, t: Tid, c: Scene, now: int, ok: bool, n: nat)
    requires th'.call == th.call && th'.stage == th.stage
    ensures Play(th', t, c, now, ok, n) == Play(th, t, c, now, ok, n)
    decreases n
  {
    if n > 0 && !c.pc.Leave? {
      assert th'.(pc := c.pc) == th.(pc := c.pc);
      SamePlay(th, th', t, Act(th, t, c, now, ok), now, ok, n - 1);
    }
  }

  /** From any moment of a section to the end of its work. */
  lemma Works(s: State, t: Tid, now: int, ok: bool, end: Scene) returns (steps: seq<Step>, r: State)
    requires t in s.threads && InSection(s.threads[t].pc) && Filed(s.threads[t], SceneOf(s, t))
    requires Gets(s.threads[t], t, SceneOf(s, t), now, ok, end)
    ensures Leads(s, steps, r) && r.lk == s.lk && Only(s, r, t, Target(s.threads[t].call))
    ensures r.threads[t] == s.threads[t].(pc := end.pc) && SceneOf(r, t) == end
  {
    var n: nat :| end == Play(s.threads[t], t, SceneOf(s, t), now, ok, n);
    steps, r := Plays(s, t, now, ok, n);
    assert SceneOf(r, t).pc == r.threads[t].pc;
  }

  lemma SameGets(th: Thread, th': Thread, t: Tid, c: Scene, now: int, ok: bool, end: Scene)
    requires th'.call == th.call && th'.stage == th.stage && Gets(th, t, c, now, ok, end)
    ensures Gets(th', t, c, now, ok, end)
  {
    var n: nat :| end == Play(th, t, c, now, ok, n);
    SamePlay(th, th', t, c, now, ok, n);
  }

  /** One critical section of a thread, from its lock to its unlock, nobody else about. */
  lemma Section(s: State, t: Tid, now: int, ok: bool, end: Scene) returns (steps: seq<Step>, r: State)
    requires t in s.threads && s.threads[t].pc.Enter? && Unlocked(s) && Filed(s.threads[t], SceneOf(s, t))
    requires Gets(s.threads[t], t, SceneOf(s, t).(pc := Inside), now, ok, end)
    ensures Leads(s, steps, r) && Unlocked(r) && Only(s, r, t, Target(s.threads[t].call))
    ensures var th := s.threads[t]; var k := Target(th.call);
      && r.threads[t] == Resume(th.(pc := Drop(end.pc.after)), end.pc.after)
      && FileAt(r, k) == end.file && MetaAt(r, k) == end.meta && r.births == end.births && r.log == end.log
  {
    var th := s.threads[t];
    var first, s1 := TakeAlone(s, t, now);
    assert SceneOf(s1, t) == SceneOf(s, t).(pc := Inside);
    SameGets(th, s1.threads[t], t, SceneOf(s1, t), now, ok, end);
    var second, s2 := Works(s1, t, now, ok, end);
    Chain(s, first, s1, second, s2);
    var third;
    third, r := GiveBack(s2, t, now);
    Chain(s, first + second, s2, third, r);
    OnlyThread(s, s1, t, Target(th.call));
    OnlyThread(s2, r, t, Target(th.call));
    OnlyThen(s, s1, s2, t, Target(th.call));
    OnlyThen(s, s2, r, t, Target(th.call));
    steps := first + second + third;
  }

  lemma Begins(s: State, t: Tid, call: Call) returns (r: State)
    requires t in s.threads ==> s.threads[t].pc.Finished?
    ensures Leads(s, [Begin(t, call)], r)
    ensures r == s.(threads := s.threads[t := Thread(call, First, FirstPc(call))])
  {
    One(s, Begin(t, call));
    r := Next(s, Begin(t, call));
  }
}
