/** What the local store guarantees over every interleaving of calls. */
module LocalStoreTheorems {
  import opened Common
  import opened Pastes
  import opened PasteHistory
  import opened LocalStore
  import opened LocalStoreInv
  import opened LocalStoreSteps
  import L = LockProtocol

  predicate Legal(s: State, steps: seq<Step>)
    decreases |steps|
  {
    steps == [] || (Enabled(s, steps[0]) && Legal(Next(s, steps[0]), steps[1..]))
  }

  function Run(s: State, steps: seq<Step>): State
    requires Legal(s, steps)
    decreases |steps|
  {
    if steps == [] then s else Run(Next(s, steps[0]), steps[1..])
  }

  lemma {:induction false} RunInv(s: State, steps: seq<Step>)
    requires Inv(s) && Legal(s, steps)
    ensures Inv(Run(s, steps))
    decreases |steps|
  {
    if steps != [] {
      StepInv(s, steps[0]);
      RunInv(Next(s, steps[0]), steps[1..]);
    }
  }

  // ---- One-time pastes ----

  /** Once a one-time view of a creation has succeeded, no View, Open or Create of that creation
      ever succeeds again: whoever succeeds later on the same id does so on a newer creation. */
  lemma OnceIsFinal(s: State, steps: seq<Step>, i: nat, j: nat)
    requires AtRest(s) && Legal(s, steps)
    requires i < j < |Run(s, steps).log| && Run(s, steps).log[i].Viewed? && Run(s, steps).log[i].once
    ensures var log := Run(s, steps).log;
      log[j].gen != log[i].gen && (log[j].id == log[i].id ==> log[j].gen > log[i].gen)
  {
    AtRestInv(s);
    RunInv(s, steps);
  }

  /** A creation whose sidecar has only ever said "once" is viewed successfully at most once. */
  lemma OnceAtMostOnce(s: State, steps: seq<Step>, i: nat, j: nat)
    requires AtRest(s) && Legal(s, steps)
    requires var log := Run(s, steps).log;
      i < |log| && j < |log| && log[i].Viewed? && log[j].Viewed? && log[i].gen == log[j].gen
    requires Run(s, steps).log[i].gen !in Run(s, steps).loose
    ensures i == j
  {
    var r := Run(s, steps);
    AtRestInv(s);
    RunInv(s, steps);
    assert EventOk(r, r.log[i]) && EventOk(r, r.log[j]);
    if i < j { OnceIsFinal(s, steps, i, j); }
    if j < i { OnceIsFinal(s, steps, j, i); }
  }

  /** And it has said something else only if a step has put such a sidecar beside its content. */
  lemma LooseByPolicy(s: State, step: Step, g: nat) returns (k: Key)
    requires Inv(s) && Enabled(s, step) && g in Next(s, step).loose && g !in s.loose
    ensures var s' := Next(s, step);
      k in s'.content && s'.content[k].gen == g && k in s'.meta && Lower(s'.meta[k].dataPolicy) != "once"
  {
    var t := step.t;
    assert step.Run?;
    k := Target(s.threads[t].call);
    assert ThreadOk(s, t);
    assert LockStep(s, t).None?;
    var e := EffectOf(s.threads[t], t, FileAt(s, k), MetaAt(s, k), |s.births|, step.now, step.ok);
    TaintedEffect(s.threads[t], t, FileAt(s, k), MetaAt(s, k), HistoryOf(s), step.now, step.ok);
    CommitTaints(s, t, e, g);
  }

  lemma CommitTaints(s: State, t: Tid, e: Effect, g: nat)
    requires t in s.threads && g in Commit(s, t, e).loose && g !in s.loose
    requires var k := Target(s.threads[t].call);
      e.taints.Some? ==>
        && e.sidecar.Put? && e.sidecar.value.id == k && Lower(e.sidecar.value.dataPolicy) != "once"
        && Applied(FileAt(s, k), e.content).Some? && Applied(FileAt(s, k), e.content).value.gen == e.taints.value
    ensures var s' := Commit(s, t, e); var k := Target(s.threads[t].call);
      k in s'.content && s'.content[k].gen == g && k in s'.meta && Lower(s'.meta[k].dataPolicy) != "once"
  {
  }

  lemma TaintedEffect(th: Thread, t: Tid, file: Option<File>, m: Option<Metadata>, h: History, now: int, ok: bool)
    requires Knows(th, t, file, m, h)
    ensures var e := EffectOf(th, t, file, m, |h.births|, now, ok);
      e.taints.Some? ==>
        && e.sidecar.Put? && e.sidecar.value.id == Target(th.call) && Lower(e.sidecar.value.dataPolicy) != "once"
        && Applied(file, e.content).Some? && Applied(file, e.content).value.gen == e.taints.value
  {
  }

  /** While a one-time callback runs, no other thread is in a critical section of that id, and what
      is on disk is the metadata that passed both checks under the exclusive lock and the body that
      was uploaded. */
  lemma OnceCallbackIsAlone(s: State, steps: seq<Step>, t: Tid, u: Tid)
    requires AtRest(s) && Legal(s, steps)
    requires var r := Run(s, steps); t in r.threads && r.threads[t].pc.Serving? && IsOnce(r.threads[t].pc.meta)
    ensures var r := Run(s, steps); var th := r.threads[t]; var k := Target(th.call);
      && th.call.View?
      && (u in r.threads && u != t && InSection(r.threads[u].pc) ==> Target(r.threads[u].call) != k)
      && k in r.meta && r.meta[k] == th.pc.meta
      && PasswordOk(r.meta[k], th.call.password) && !IsExpired(r.meta[k], th.pc.at)
      && k in r.content && r.content[k].gen == th.pc.gen < |r.births| &&
        r.content[k].bytes == r.births[th.pc.gen].source
  {
    var r := Run(s, steps);
    AtRestInv(s);
    RunInv(s, steps);
    var k := Target(r.threads[t].call);
    assert ThreadOk(r, t);
    HolderSees(r, t);
    if u in r.threads && u != t && InSection(r.threads[u].pc) && Target(r.threads[u].call) == k {
      BothInSection(r, t, u);
    }
  }

  /** Whoever reads a paste, once or not, knows its password and came before its expiry: the checks
      were made on the sidecar that is there now, unless the paste is just being removed as expired. */
  lemma AccessIsAuthorized(s: State, steps: seq<Step>, t: Tid)
    requires AtRest(s) && Legal(s, steps)
    requires var r := Run(s, steps); t in r.threads && (r.threads[t].pc.Opening? || r.threads[t].pc.Serving?)
    ensures var r := Run(s, steps); var th := r.threads[t]; var k := Target(th.call);
      && (th.call.View? || th.call.Open?)
      && PasswordOk(th.pc.meta, th.call.password) && !IsExpired(th.pc.meta, th.pc.at)
      && (k in r.meta ==> r.meta[k] == th.pc.meta)
      && (k in r.content ==> r.content[k].published)
  {
    var r := Run(s, steps);
    AtRestInv(s);
    RunInv(s, steps);
    assert ThreadOk(r, t);
    HolderSees(r, t);
  }

  /** A callback that fails changes neither files nor history. */
  lemma FailedCallbackLeavesPaste(s: State, t: Tid, now: int)
    requires Inv(s) && Enabled(s, LocalStore.Step.Run(t, now, false)) && s.threads[t].pc.Serving?
    ensures var s' := Next(s, LocalStore.Step.Run(t, now, false));
      s'.content == s.content && s'.meta == s.meta && s'.log == s.log && s'.threads[t].pc == Leave(Return(false))
  {
  }

  // ---- Files ----

  predicate HoldsExclusively(s: State, t: Tid, k: Key) {
    var p := PhaseOf(s, t);
    p.Holding? && p.key == k && p.mode == L.Exclusive
  }

  /** Unless some thread holds the key exclusively, a content file has a sidecar, and the content
      is the complete body of the creation it belongs to. */
  lemma ContentHasSidecar(s: State, steps: seq<Step>, k: Key)
    requires AtRest(s) && Legal(s, steps) && k in Run(s, steps).content
    ensures var r := Run(s, steps);
      || (exists t :: t in r.threads && HoldsExclusively(r, t, k))
      || (k in r.meta && r.meta[k].id == k && r.content[k].gen < |r.births| &&
        r.content[k].bytes == r.births[r.content[k].gen].source)
  {
    var r := Run(s, steps);
    AtRestInv(s);
    RunInv(s, steps);
    assert FileOk(r, k);
    if !r.content[k].published {
      var c := r.content[k].creator;
      assert ThreadOk(r, c);
      assert HoldsExclusively(r, c, k);
    }
  }

  // ---- Who may remove and change what ----

  /** A complete paste loses its content only in a call about its id that is entitled to it: a
      delete with the token in the sidecar, the consumption of a one-time view, the administrator,
      or any call that has found the sidecar expired. */
  lemma RemovalIsAuthorized(s: State, steps: seq<Step>, t: Tid, now: int, ok: bool, k: Key)
    requires AtRest(s) && Legal(s, steps)
    requires var r := Run(s, steps);
      && Enabled(r, LocalStore.Step.Run(t, now, ok)) && k in r.content && r.content[k].published
      && k !in Next(r, LocalStore.Step.Run(t, now, ok)).content
    ensures var r := Run(s, steps); var th := r.threads[t];
      && Target(th.call) == k && k in r.meta
      && (|| (th.pc.Purge? && IsExpired(r.meta[k], th.pc.at))
          || (HoldsExclusively(r, t, k) && MayErase(th, t, Some(r.content[k]), Some(r.meta[k]))))
  {
    var r := Run(s, steps);
    AtRestInv(s);
    RunInv(s, steps);
    assert ThreadOk(r, t) && FileOk(r, k);
    if LockStep(r, t).Some? {
      LockStepKeepsFiles(r, t);
    } else {
      var j := Target(r.threads[t].call);
      CommitContent(r, t, EffectOf(r.threads[t], t, FileAt(r, j), MetaAt(r, j), |r.births|, now, ok), k);
    }
  }

  lemma CommitMeta(s: State, t: Tid, e: Effect, k: Key)
    requires t in s.threads && (e.sidecar.Put? ==> e.sidecar.value.id == Target(s.threads[t].call))
    ensures MetaAt(Commit(s, t, e), k) ==
      if k == Target(s.threads[t].call) then Applied(MetaAt(s, k), e.sidecar) else MetaAt(s, k)
  {
  }

  /** Only `Writing` changes the sidecar of a published file. */
  lemma EffectEdits(th: Thread, t: Tid, f: File, m: Metadata, h: History, now: int, ok: bool)
    requires Knows(th, t, Some(f), Some(m), h) && f.published
    ensures var e := EffectOf(th, t, Some(f), Some(m), |h.births|, now, ok);
      e.sidecar.Put? ==> th.pc == Writing(e.sidecar.value) && e.sidecar.value.id == Target(th.call)
  {
  }

  /** The sidecar of a complete paste changes only under its exclusive lock, and by a manager who
      knows the token in it, in the one field asked for. Label updates are the exception: they write
      back a whole record checked in an earlier critical section. */
  lemma EditIsAuthorized(s: State, steps: seq<Step>, t: Tid, now: int, ok: bool, k: Key)
    requires AtRest(s) && Legal(s, steps)
    requires var r := Run(s, steps);
      && Enabled(r, LocalStore.Step.Run(t, now, ok)) && k in r.content && r.content[k].published
      && k in Next(r, LocalStore.Step.Run(t, now, ok)).meta
      && k in r.meta && Next(r, LocalStore.Step.Run(t, now, ok)).meta[k] != r.meta[k]
    ensures var r := Run(s, steps); var m := Next(r, LocalStore.Step.Run(t, now, ok)).meta[k];
      && HoldsExclusively(r, t, k) && Target(r.threads[t].call) == k
      && (Relabels(r.threads[t].call, m) || Edits(r.threads[t].call, r.meta[k], m))
  {
    var r := Run(s, steps);
    AtRestInv(s);
    RunInv(s, steps);
    assert ThreadOk(r, t);
    if LockStep(r, t).Some? {
      LockStepKeepsFiles(r, t);
    } else {
      EditStep(r, t, now, ok, k);
    }
  }

  lemma EditStep(r: State, t: Tid, now: int, ok: bool, k: Key)
    requires Inv(r) && t in r.threads && LockStep(r, t).None?
    requires k in r.content && r.content[k].published && k in r.meta
    requires MetaAt(RunFile(r, t, now, ok), k).Some? && MetaAt(RunFile(r, t, now, ok), k) != MetaAt(r, k)
    ensures HoldsExclusively(r, t, k) && Target(r.threads[t].call) == k
    ensures MayWrite(r.threads[t].call, MetaAt(r, k), MetaAt(RunFile(r, t, now, ok), k).value)
  {
    var th := r.threads[t];
    var j := Target(th.call);
    var e := EffectOf(th, t, FileAt(r, j), MetaAt(r, j), |r.births|, now, ok);
    assert ThreadOk(r, t);
    if e.sidecar.Put? {
      assert th.pc.Writing? || th.pc.Publish?;
      assert e.sidecar.value.id == j;
    }
    CommitMeta(r, t, e, k);
    if j == k {
      EffectEdits(th, t, r.content[k], r.meta[k], HistoryOf(r), now, ok);
    }
  }

  /** A call that reports success has done what it reports: when it is about to unlock, its paste is
      published with exactly the uploaded body, or gone, or carries the new field. */
  lemma SuccessIsTrue(s: State, steps: seq<Step>, t: Tid)
    requires AtRest(s) && Legal(s, steps)
    requires t in Run(s, steps).threads && Run(s, steps).threads[t].pc == Leave(Return(true))
    ensures var r := Run(s, steps); var call := r.threads[t].call;
      Reported(call, FileAt(r, Target(call)), MetaAt(r, Target(call)))
  {
    AtRestInv(s);
    RunInv(s, steps);
    assert ThreadOk(Run(s, steps), t);
  }

  lemma EffectNeverReplaces(th: Thread, t: Tid, f: File, meta: Option<Metadata>, h: History, now: int, ok: bool)
    requires Knows(th, t, Some(f), meta, h)
    ensures var f' := Applied(Some(f), EffectOf(th, t, Some(f), meta, |h.births|, now, ok).content);
      f'.Some? ==> f'.value.gen == f.gen && (f.published ==> f'.value.published && f'.value.bytes == f.bytes)
  {
  }

  lemma CommitContent(s: State, t: Tid, e: Effect, k: Key)
    requires t in s.threads
    ensures FileAt(Commit(s, t, e), k) ==
      if k == Target(s.threads[t].call) then Applied(FileAt(s, k), e.content) else FileAt(s, k)
  {
  }

  /** No single step replaces one creation of an id by another: the file is absent in between. */
  lemma CreationsNeverOverlap(s: State, step: Step, k: Key)
    requires Inv(s) && Enabled(s, step)
    requires k in s.content && k in Next(s, step).content
    ensures var f, f' := s.content[k], Next(s, step).content[k];
      f'.gen == f.gen && (f.published ==> f'.published && f'.bytes == f.bytes)
  {
    if step.Run? {
      if LockStep(s, step.t).None? {
        var th := s.threads[step.t];
        var target := Target(th.call);
        var e := EffectOf(th, step.t, FileAt(s, target), MetaAt(s, target), |s.births|, step.now, step.ok);
        assert ThreadOk(s, step.t);
        CommitContent(s, step.t, e, k);
        if target == k {
          EffectNeverReplaces(th, step.t, s.content[k], MetaAt(s, k), HistoryOf(s), step.now, step.ok);
        }
        assert FileAt(Next(s, step), k) == FileAt(Commit(s, step.t, e), k);
      }
    }
  }

  lemma LosingEffect(th: Thread, t: Tid, file: Option<File>, meta: Option<Metadata>, nextGen: nat, now: int, ok: bool)
    requires th.call.Create? && !Creating(th.pc) && StageOk(th)
    ensures var e := EffectOf(th, t, file, meta, nextGen, now, ok);
      && e.sidecar.Keep? && e.event.None? && !e.content.Remove?
      && (e.content.Put? ==> file.None? && e.pc.Fill? && e.content.value.creator == t)
  {
  }

  lemma LockStepKeepsFiles(s: State, t: Tid)
    requires t in s.threads && LockStep(s, t).Some? && L.Enabled(s.lk, LockStep(s, t).value)
    ensures var s' := RunLock(s, t); s'.content == s.content && s'.meta == s.meta && s'.log == s.log
  {
  }

  lemma LosingCommit(s: State, t: Tid, e: Effect)
    requires t in s.threads && e.sidecar.Keep? && e.event.None? && !e.content.Remove?
    requires e.content.Put? ==> Target(s.threads[t].call) !in s.content && e.pc.Fill? && e.content.value.creator == t
    ensures var s' := Commit(s, t, e);
      && s'.meta == s.meta && s'.log == s.log
      && (forall k :: k in s.content ==> k in s'.content && s'.content[k] == s.content[k])
      && (forall k :: k in s'.content && k !in s.content ==> s'.threads[t].pc.Fill? && s'.content[k].creator == t)
  {
  }

  /** A Create that did not win the exclusive creation leaves every file as it is. */
  lemma LosingCreateChangesNothing(s: State, t: Tid, now: int, ok: bool)
    requires Inv(s) && Enabled(s, LocalStore.Step.Run(t, now, ok)) && s.threads[t].call.Create? &&
      !Creating(s.threads[t].pc)
    ensures var s' := Next(s, LocalStore.Step.Run(t, now, ok));
      && s'.meta == s.meta && s'.log == s.log
      && (forall k :: k in s.content ==> k in s'.content && s'.content[k] == s.content[k])
      && (forall k :: k in s'.content && k !in s.content ==> s'.threads[t].pc.Fill? && s'.content[k].creator == t)
  {
    assert ThreadOk(s, t);
    if LockStep(s, t).Some? {
      LockStepKeepsFiles(s, t);
    } else {
      var k := Target(s.threads[t].call);
      var e := EffectOf(s.threads[t], t, FileAt(s, k), MetaAt(s, k), |s.births|, now, ok);
      LosingEffect(s.threads[t], t, FileAt(s, k), MetaAt(s, k), |s.births|, now, ok);
      LosingCommit(s, t, e);
    }
  }

  /** The content of `k` is present in every state of the run. */
  predicate Persists(s: State, steps: seq<Step>, k: Key)
    requires Legal(s, steps)
    decreases |steps|
  {
    k in s.content && (steps == [] || Persists(Next(s, steps[0]), steps[1..], k))
  }

  lemma EffectLogs(th: Thread, t: Tid, file: Option<File>, meta: Option<Metadata>, h: History, now: int, ok: bool)
    requires Knows(th, t, file, meta, h)
    ensures var e := EffectOf(th, t, file, meta, |h.births|, now, ok);
      e.event.Some? && e.event.value.Created? ==>
        e.event.value.id == Target(th.call) && (file.Some? ==> !file.value.published)
  {
  }

  /** A step logs at most one event, and a successful Create only of a file not yet published. */
  lemma StepLog(s: State, step: Step)
    requires Inv(s) && Enabled(s, step)
    ensures s.log <= Next(s, step).log && |Next(s, step).log| <= |s.log| + 1
    ensures forall k, i :: k in s.content && s.content[k].published && |s.log| <= i < |Next(s, step).log| ==>
      !(Next(s, step).log[i].Created? && Next(s, step).log[i].id == k)
  {
    if step.Run? {
      var t := step.t;
      var j := Target(s.threads[t].call);
      if LockStep(s, t).Some? {
        LockStepKeepsFiles(s, t);
      } else {
        assert Knows(s.threads[t], t, FileAt(s, j), MetaAt(s, j), HistoryOf(s)) by { assert ThreadOk(s, t); }
        EffectLogs(s.threads[t], t, FileAt(s, j), MetaAt(s, j), HistoryOf(s), step.now, step.ok);
      }
    }
  }

  /** Of concurrent creates of one code at most one succeeds while it exists: as long as a published
      paste stays, no Create of its id is reported successful. */
  lemma {:induction false} NoSecondCreate(s: State, steps: seq<Step>, k: Key, i: nat)
    requires Inv(s) && Legal(s, steps) && Persists(s, steps, k) && s.content[k].published
    requires |s.log| <= i < |Run(s, steps).log|
    ensures !(Run(s, steps).log[i].Created? && Run(s, steps).log[i].id == k)
    decreases |steps|
  {
    if steps != [] {
      var s' := Next(s, steps[0]);
      StepInv(s, steps[0]);
      if i < |s'.log| {
        StepLog(s, steps[0]);
        LogGrows(s', steps[1..]);
      } else {
        CreationsNeverOverlap(s, steps[0], k);
        NoSecondCreate(s', steps[1..], k, i);
      }
    }
  }

  lemma {:induction false} LogGrows(s: State, steps: seq<Step>)
    requires Inv(s) && Legal(s, steps)
    ensures s.log <= Run(s, steps).log
    decreases |steps|
  {
    if steps != [] {
      StepInv(s, steps[0]);
      StepLog(s, steps[0]);
      LogGrows(Next(s, steps[0]), steps[1..]);
    }
  }

  // ---- Progress ----

  /** A thread that is not waiting for a mutex can go on by itself. */
  lemma UnblockedMoves(s: State, t: Tid, turn: L.Turn)
    requires t in s.threads && Shape(s, t) && !s.threads[t].pc.Blocked?
    ensures LockStep(s, t).Some? ==> L.FairlyEnabled(s.lk, LockStep(s, t).value, turn)
  {
  }

  /** A waiting thread whose mutex is free to take stands for that step. */
  lemma WaitingStep(s: State, u: Tid)
    requires u in s.threads && Shape(s, u) && s.threads[u].pc.Blocked?
    ensures LockStep(s, u) == Some(L.Acquire(u)) && PhaseOf(s, u).Waiting?
  {
  }

  /** No reachable state is stuck: with any call unfinished some thread can take a step, whichever of
      the waiting readers and writers the mutexes let go first. */
  lemma Progress(s: State, t: Tid, turn: L.Turn) returns (u: Tid)
    requires Inv(s) && t in s.threads && !s.threads[t].pc.Finished?
    ensures u in s.threads && !s.threads[u].pc.Finished?
    ensures LockStep(s, u).Some? ==> L.FairlyEnabled(s.lk, LockStep(s, u).value, turn)
  {
    assert Shape(s, t) by { assert ThreadOk(s, t); }
    u := t;
    if s.threads[t].pc.Blocked? {
      var step := L.LockProgress(s.lk, t, turn);
      u := step.t;
      assert Shape(s, u) by { assert ThreadOk(s, u); }
      if s.threads[u].pc.Blocked? { WaitingStep(s, u); }
    }
    if !s.threads[u].pc.Blocked? { UnblockedMoves(s, u, turn); }
  }

  /** Every acquisition has been released when all calls have finished: the lock map is empty. */
  lemma QuiescentStoreHoldsNoLock(s: State, steps: seq<Step>)
    requires AtRest(s) && Legal(s, steps)
    ensures var r := Run(s, steps);
      (forall t :: t in r.threads ==> r.threads[t].pc.Finished?) ==> r.lk.locks == map[]
  {
    var r := Run(s, steps);
    AtRestInv(s);
    RunInv(s, steps);
    if r.lk.locks != map[] {
      var k :| k in r.lk.locks;
      var t := L.EntryHasUser(r.lk, k);
      assert ThreadOk(r, t);
    }
  }
}
