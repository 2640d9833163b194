/** Every step of the local store keeps the invariant. File steps are judged on the values of one
    key; `Lift` then carries the result to the whole state. */
module LocalStoreSteps {
  import opened Common
  import opened Pastes
  import opened PasteHistory
  import opened LocalStore
  import opened LocalStoreInv
  import L = LockProtocol

  // ---- Steps that touch no file ----

  lemma BeginThread(s: State, t: Tid, call: Call)
    requires Inv(s) && Enabled(s, Begin(t, call))
    ensures PhaseOf(s, t).Idle? && ThreadOk(Next(s, Begin(t, call)), t)
  {
    if t in s.threads {
      assert Shape(s, t) by { assert ThreadOk(s, t); }
    }
  }

  lemma BeginInv(s: State, t: Tid, call: Call)
    requires Inv(s) && Enabled(s, Begin(t, call))
    ensures Inv(Next(s, Begin(t, call)))
  {
    BeginThread(s, t, call);
    LiftQuiet(s, Next(s, Begin(t, call)), t);
  }

  lemma LockStepQuiet(s: State, t: Tid)
    requires t in s.threads && LockStep(s, t).Some? && L.Enabled(s.lk, LockStep(s, t).value)
    ensures Quiet(s, RunLock(s, t), t)
  {
    L.PhaseAfter(s.lk, LockStep(s, t).value);
  }

  lemma EnterShape(s: State, t: Tid)
    requires Inv(s) && t in s.threads && (s.threads[t].pc.Enter? || s.threads[t].pc.Blocked?)
    requires L.Enabled(s.lk, LockStep(s, t).value)
    ensures ThreadOk(RunLock(s, t), t)
  {
    assert ThreadOk(s, t);
    L.PhaseAfter(s.lk, LockStep(s, t).value);
  }

  lemma LeaveShape(s: State, t: Tid)
    requires Inv(s) && t in s.threads && s.threads[t].pc.Leave?
    requires LockStep(s, t).Some? && L.Enabled(s.lk, LockStep(s, t).value)
    ensures ThreadOk(RunLock(s, t), t)
  {
    assert ThreadOk(s, t);
    L.PhaseAfter(s.lk, L.Unlock(t));
  }

  /** A thread that continues after a critical section starts the next one, or has finished. */
  lemma ResumeOk(th: Thread, after: After)
    requires StageOk(th) && th.pc == Drop(after)
    ensures StageOk(Resume(th, after)) && (Resume(th, after).pc.Enter? || Resume(th, after).pc.Finished?)
  {
  }

  lemma DropShape(s: State, t: Tid)
    requires Inv(s) && t in s.threads && s.threads[t].pc.Drop?
    requires LockStep(s, t).Some? && L.Enabled(s.lk, LockStep(s, t).value)
    ensures ThreadOk(RunLock(s, t), t)
  {
    assert ThreadOk(s, t);
    L.PhaseAfter(s.lk, L.DropRef(t));
    ResumeOk(s.threads[t], s.threads[t].pc.after);
  }

  lemma LockInv(s: State, t: Tid)
    requires Inv(s) && t in s.threads && LockStep(s, t).Some? && L.Enabled(s.lk, LockStep(s, t).value)
    ensures Inv(RunLock(s, t))
  {
    L.StepInv(s.lk, LockStep(s, t).value);
    LockStepQuiet(s, t);
    if s.threads[t].pc.Leave? { LeaveShape(s, t); }
    else if s.threads[t].pc.Drop? { DropShape(s, t); }
    else { EnterShape(s, t); }
    LiftQuiet(s, RunLock(s, t), t);
  }

  lemma ReserveInv(s: State, t: Tid, now: int, ok: bool)
    requires Inv(s) && t in s.threads && (s.threads[t].pc.Reserve? || s.threads[t].pc.ReserveMeta?)
    ensures Inv(RunFile(s, t, now, ok))
  {
    assert ThreadOk(s, t);
    LiftQuiet(s, RunFile(s, t, now, ok), t);
  }

  // ---- File steps, on the values of one key ----

  function HistoryAfter(h: History, e: Effect, th: Thread): History {
    History(if e.claims && th.call.Create? then h.births + [Birth(Target(th.call), th.call.source)] else h.births,
            if e.event.Some? then h.log + [e.event.value] else h.log,
            if e.taints.Some? then h.loose + {e.taints.value} else h.loose)
  }

  /** What the holder of a key sees of its content. */
  ghost predicate Sees(th: Thread, t: Tid, file: Option<File>, meta: Option<Metadata>, h: History) {
    var k := Target(th.call);
    && (meta.Some? ==> meta.value.id == k)
    && (file.Some? ==>
          && Sound(k, file.value, meta, h)
          && (file.value.published || (Creating(th.pc) && file.value.creator == t))
          && (file.value.consumer.None? || (th.pc.Erase? && file.value.consumer.value == t)))
  }

  predicate RemovesOnly(e: Effect) {
    && !e.content.Put? && !e.sidecar.Put?
    && (e.event.Some? ==> !OnceView(e.event.value)) && !e.claims
  }

  /** The event a step logs is about a creation of this key that no one-time view has consumed. */
  ghost predicate EventFits(e: Effect, k: Key, h: History, h': History) {
    e.event.Some? ==>
      var v := e.event.value;
      && v.id == k && v.gen < |h'.births| && h'.births[v.gen].id == k
      && (v.Viewed? ==> v.body == h'.births[v.gen].source)
      && (v.Viewed? && v.gen !in h'.loose ==> v.once)
      && !Consumed(h.log, v.gen) && Newest(k, v.gen, h.births)
  }

  /** The judgement on one file step: everything `Lift` needs, on the values of the key alone. */
  ghost predicate Keeps(th: Thread, t: Tid, file: Option<File>, meta: Option<Metadata>, h: History, e: Effect) {
    var k := Target(th.call);
    var h' := HistoryAfter(h, e, th);
    var th' := th.(pc := e.pc);
    && InSection(e.pc)
    && (RemovesOnly(e) || ModeOf(th) == L.Exclusive)
    && (e.sidecar.Put? ==> e.sidecar.value.id == k)
    && StageOk(th')
    && Knows(th', t, Applied(file, e.content), Applied(meta, e.sidecar), h')
    && Sees(th', t, Applied(file, e.content), Applied(meta, e.sidecar), h')
    && EventFits(e, k, h, h')
  }

  lemma DecideKeeps(th: Thread, t: Tid, file: Option<File>, meta: Option<Metadata>, h: History, now: int)
    requires th.pc.Inside? && StageOk(th) && Sees(th, t, file, meta, h)
    ensures Keeps(th, t, file, meta, h, Go(Decide(th, meta, now)))
  {
  }

  lemma ClaimKeeps(th: Thread, t: Tid, meta: Option<Metadata>, h: History, now: int, ok: bool)
    requires th.pc.Inside? && th.call.Create? && StageOk(th) && Sees(th, t, None, meta, h)
    requires !Consumed(h.log, |h.births|)
    ensures Keeps(th, t, None, meta, h, EffectOf(th, t, None, meta, |h.births|, now, ok))
  {
  }

  lemma OpeningKeeps(th: Thread, t: Tid, file: Option<File>, meta: Option<Metadata>, h: History, now: int, ok: bool)
    requires th.pc.Opening? && StageOk(th) && Sees(th, t, file, meta, h) && Knows(th, t, file, meta, h)
    ensures Keeps(th, t, file, meta, h, EffectOf(th, t, file, meta, |h.births|, now, ok))
  {
    if file.Some? { ConsumedAppend(h.log, Opened(Target(th.call), file.value.gen), file.value.gen); }
  }

  lemma ServingKeeps(th: Thread, t: Tid, file: Option<File>, meta: Option<Metadata>, h: History, now: int, ok: bool)
    requires th.pc.Serving? && StageOk(th) && Sees(th, t, file, meta, h) && Knows(th, t, file, meta, h)
    ensures Keeps(th, t, file, meta, h, EffectOf(th, t, file, meta, |h.births|, now, ok))
  {
    var g := th.pc.gen;
    ConsumedAppend(h.log, Viewed(Target(th.call), g, false, th.pc.body), g);
    ConsumedAppend(h.log, Viewed(Target(th.call), g, true, th.pc.body), g);
  }

  lemma CreatingKeeps(th: Thread, t: Tid, file: Option<File>, meta: Option<Metadata>, h: History, now: int, ok: bool)
    requires Creating(th.pc) && StageOk(th) && Sees(th, t, file, meta, h) && Knows(th, t, file, meta, h)
    ensures Keeps(th, t, file, meta, h, EffectOf(th, t, file, meta, |h.births|, now, ok))
  {
    var g := file.value.gen;
    ConsumedAppend(h.log, Created(Target(th.call), g), g);
  }

  lemma RemovalKeeps(th: Thread, t: Tid, file: Option<File>, meta: Option<Metadata>, h: History, now: int, ok: bool)
    requires th.pc.Purge? || th.pc.PurgeMeta? || th.pc.Erase? || th.pc.EraseMeta? || th.pc.Writing?
    requires StageOk(th) && Sees(th, t, file, meta, h) && Knows(th, t, file, meta, h)
    ensures Keeps(th, t, file, meta, h, EffectOf(th, t, file, meta, |h.births|, now, ok))
  {
  }

  lemma EffectKeeps(th: Thread, t: Tid, file: Option<File>, meta: Option<Metadata>, h: History, now: int, ok: bool)
    requires InSection(th.pc) && !th.pc.Leave?
    requires StageOk(th) && Sees(th, t, file, meta, h) && Knows(th, t, file, meta, h)
    requires !Consumed(h.log, |h.births|)
    ensures Keeps(th, t, file, meta, h, EffectOf(th, t, file, meta, |h.births|, now, ok))
  {
    if th.pc.Inside? {
      if th.call.Create? && file.None? { ClaimKeeps(th, t, meta, h, now, ok); }
      else { DecideKeeps(th, t, file, meta, h, now); }
    }
    else if th.pc.Opening? { OpeningKeeps(th, t, file, meta, h, now, ok); }
    else if th.pc.Serving? { ServingKeeps(th, t, file, meta, h, now, ok); }
    else if Creating(th.pc) { CreatingKeeps(th, t, file, meta, h, now, ok); }
    else { RemovalKeeps(th, t, file, meta, h, now, ok); }
  }

  // ---- From one key to the whole state ----

  /** Whoever attends the file of a key that `t` holds is `t` itself. */
  lemma AttendedByHolder(s: State, t: Tid, u: Tid)
    requires Inv(s) && t in s.threads && u in s.threads && InSection(s.threads[t].pc)
    requires Creating(s.threads[u].pc) || s.threads[u].pc.Erase?
    requires Target(s.threads[u].call) == Target(s.threads[t].call)
    ensures u == t
  {
    assert ThreadOk(s, u);
    if u != t {
      BothInSection(s, t, u);
    }
  }

  lemma HolderSees(s: State, t: Tid)
    requires Inv(s) && t in s.threads && InSection(s.threads[t].pc)
    ensures var th := s.threads[t]; var k := Target(th.call);
      Sees(th, t, FileAt(s, k), MetaAt(s, k), HistoryOf(s))
  {
    var k := Target(s.threads[t].call);
    if k in s.content {
      assert FileOk(s, k);
      var f := s.content[k];
      if !f.published { AttendedByHolder(s, t, f.creator); }
      if f.consumer.Some? { AttendedByHolder(s, t, f.consumer.value); }
    }
  }

  lemma NewNumberIsUnused(s: State)
    requires Inv(s)
    ensures !Consumed(s.log, |s.births|)
  {
    forall i | 0 <= i < |s.log|
      ensures s.log[i].gen != |s.births|
    {
      assert EventOk(s, s.log[i]);
    }
  }

  lemma CommitLocal(s: State, t: Tid, e: Effect)
    requires t in s.threads
    requires e.sidecar.Put? ==> e.sidecar.value.id == Target(s.threads[t].call)
    requires e.event.Some? ==> e.event.value.id == Target(s.threads[t].call)
    ensures var k := Target(s.threads[t].call); var s' := Commit(s, t, e);
      && Local(s, s', t, k)
      && FileAt(s', k) == Applied(FileAt(s, k), e.content)
      && MetaAt(s', k) == Applied(MetaAt(s, k), e.sidecar)
      && HistoryOf(s') == HistoryAfter(HistoryOf(s), e, s.threads[t])
      && (RemovesOnly(e) ==> OnlyRemoves(s, s', k))
      && (e.event.Some? ==> s'.log[|s.log|] == e.event.value)
  {
  }

  lemma CommitFile(s: State, t: Tid, e: Effect)
    requires t in s.threads
    requires var th := s.threads[t]; var k := Target(th.call);
      Keeps(th, t, FileAt(s, k), MetaAt(s, k), HistoryOf(s), e)
    ensures var k := Target(s.threads[t].call); var s' := Commit(s, t, e);
      && (k in s'.content ==> FileOk(s', k))
      && (k in s'.meta ==> s'.meta[k].id == k)
  {
    CommitLocal(s, t, e);
  }

  lemma FileInv(s: State, t: Tid, now: int, ok: bool)
    requires Inv(s) && t in s.threads && InSection(s.threads[t].pc) && !s.threads[t].pc.Leave?
    ensures Inv(RunFile(s, t, now, ok))
  {
    var th := s.threads[t];
    var k := Target(th.call);
    var e := EffectOf(th, t, FileAt(s, k), MetaAt(s, k), |s.births|, now, ok);
    assert ThreadOk(s, t);
    HolderSees(s, t);
    NewNumberIsUnused(s);
    EffectKeeps(th, t, FileAt(s, k), MetaAt(s, k), HistoryOf(s), now, ok);
    CommitLocal(s, t, e);
    CommitFile(s, t, e);
    var s' := Commit(s, t, e);
    Lift(s, s', t, k);
  }

  lemma StepInv(s: State, step: Step)
    requires Inv(s) && Enabled(s, step)
    ensures Inv(Next(s, step))
  {
    match step
    case Begin(t, call) => BeginInv(s, t, call);
    case Run(t, now, ok) =>
      if LockStep(s, t).Some? { LockInv(s, t); }
      else if InSection(s.threads[t].pc) { FileInv(s, t, now, ok); }
      else { ReserveInv(s, t, now, ok); }
  }
}
