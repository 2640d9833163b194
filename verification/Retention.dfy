/** Policy and expiry over whole runs of the stores: whatever calls come, in whatever order, with
    label updates bringing back records of earlier pastes included, a stored record says "permanent" if
    and only if it has no expiry. All policies come from `ParseDataPolicy`. */
module LocalRetention {
  import opened Common
  import opened Pastes
  import opened DataPolicy
  import opened LocalStore
  import T = LocalStoreTheorems
  import L = LockProtocol

  /** What some parsed policy gives at some moment. */
  ghost predicate Parsed(policy: string, expiresAt: Option<int>) {
    exists value, now, ttl :: Gives(value, now, ttl, policy, expiresAt)
  }

  predicate Gives(value: string, now: int, ttl: int, policy: string, expiresAt: Option<int>) {
    var p := ParseDataPolicy(value);
    p.Some? && policy == p.value.name && expiresAt == ExpiresAt(p.value, now, ttl)
  }

  lemma ParsedIsCoherent(m: Metadata)
    requires Parsed(m.dataPolicy, m.expiresAt)
    ensures Coherent(m)
  {
    var value, now, ttl :| Gives(value, now, ttl, m.dataPolicy, m.expiresAt);
    WithPolicyIsCoherent(m, value, now, ttl);
    assert WithPolicy(m, ParseDataPolicy(value).value, now, ttl) == m;
  }

  /** The policies that come with a call have been parsed. */
  ghost predicate ParsedCall(call: Call) {
    && (call.Create? ==> Parsed(call.meta.dataPolicy, call.meta.expiresAt))
    && (call.SetDataPolicy? ==> Parsed(call.policy, call.expiresAt))
  }

  /** Every record a thread may yet write. */
  predicate WritesCoherent(th: Thread) {
    && (th.pc.Writing? ==> Coherent(th.pc.meta))
    && (th.stage.Relabel? ==> Coherent(th.stage.meta))
    && ((th.pc.Leave? || th.pc.Drop?) && th.pc.after.Reenter? && th.pc.after.stage.Relabel? ==>
          Coherent(th.pc.after.stage.meta))
  }

  ghost predicate AllCoherent(s: State) {
    && (forall k :: k in s.meta ==> Coherent(s.meta[k]))
    && (forall t :: t in s.threads ==> ParsedCall(s.threads[t].call) && WritesCoherent(s.threads[t]))
  }

  lemma ManagedCoherent(th: Thread, m: Metadata)
    requires ParsedCall(th.call) && WritesCoherent(th) && Coherent(m)
    ensures WritesCoherent(th.(pc := Managed(th.call, m)))
  {
    if th.call.SetDataPolicy? {
      ParsedIsCoherent(m.(dataPolicy := th.call.policy, expiresAt := th.call.expiresAt));
    }
  }

  lemma DecideCoherent(th: Thread, m: Option<Metadata>, now: int)
    requires ParsedCall(th.call) && WritesCoherent(th) && th.pc.Inside? && (m.Some? ==> Coherent(m.value))
    ensures WritesCoherent(th.(pc := Decide(th, m, now)))
  {
    if m.Some? { ManagedCoherent(th, m.value); }
  }

  /** Elsewhere a thread writes at most the record it has. */
  lemma NoNewRecord(th: Thread, t: Tid, file: Option<File>, m: Option<Metadata>, nextGen: nat, now: int, ok: bool)
    requires !th.pc.Inside? && !th.pc.Publish? && WritesCoherent(th)
    ensures var e := EffectOf(th, t, file, m, nextGen, now, ok);
      && (e.sidecar.Put? ==> th.pc == Writing(e.sidecar.value))
      && (!th.pc.Leave? && !th.pc.Drop? ==> WritesCoherent(th.(pc := e.pc)))
  {
  }

  lemma EffectCoherent(th: Thread, t: Tid, file: Option<File>, m: Option<Metadata>, nextGen: nat, now: int, ok: bool)
    requires ParsedCall(th.call) && WritesCoherent(th) && (m.Some? ==> Coherent(m.value))
    ensures var e := EffectOf(th, t, file, m, nextGen, now, ok);
      && (e.sidecar.Put? ==> Coherent(e.sidecar.value))
      && (!th.pc.Leave? && !th.pc.Drop? ==> WritesCoherent(th.(pc := e.pc)))
  {
    if th.pc.Inside? {
      DecideCoherent(th, m, now);
    } else if th.pc.Publish? {
      if th.call.Create? { ParsedIsCoherent(NewMeta(th.call)); }
    } else {
      NoNewRecord(th, t, file, m, nextGen, now, ok);
    }
  }

  lemma ResumeCoherent(th: Thread, after: After)
    requires ParsedCall(th.call) && WritesCoherent(th) && th.pc == Drop(after)
    ensures ParsedCall(Resume(th, after).call) && WritesCoherent(Resume(th, after))
  {
  }

  lemma LockCoherent(s: State, t: Tid)
    requires AllCoherent(s) && t in s.threads && LockStep(s, t).Some? && L.Enabled(s.lk, LockStep(s, t).value)
    ensures AllCoherent(RunLock(s, t))
  {
    if s.threads[t].pc.Drop? { ResumeCoherent(s.threads[t], s.threads[t].pc.after); }
  }

  lemma FileCoherent(s: State, t: Tid, now: int, ok: bool)
    requires AllCoherent(s) && t in s.threads && LockStep(s, t).None?
    ensures AllCoherent(RunFile(s, t, now, ok))
  {
    var th := s.threads[t];
    var k := Target(th.call);
    EffectCoherent(th, t, FileAt(s, k), MetaAt(s, k), |s.births|, now, ok);
  }

  lemma StepCoherent(s: State, step: Step)
    requires AllCoherent(s) && Enabled(s, step) && (step.Begin? ==> ParsedCall(step.call))
    ensures AllCoherent(Next(s, step))
  {
    if step.Run? {
      if LockStep(s, step.t).Some? { LockCoherent(s, step.t); } else { FileCoherent(s, step.t, step.now, step.ok); }
    }
  }

  ghost predicate ParsedCalls(steps: seq<Step>) {
    forall i :: 0 <= i < |steps| && steps[i].Begin? ==> ParsedCall(steps[i].call)
  }

  /** Over every interleaving of all operations, from a directory at rest whose sidecars are coherent,
      every sidecar is. */
  lemma {:induction false} SidecarsStayCoherent(s: State, steps: seq<Step>)
    requires AllCoherent(s) && T.Legal(s, steps) && ParsedCalls(steps)
    ensures AllCoherent(T.Run(s, steps))
    decreases |steps|
  {
    if steps != [] {
      StepCoherent(s, steps[0]);
      assert forall i :: 0 <= i < |steps[1..]| ==> steps[1..][i] == steps[i + 1];
      SidecarsStayCoherent(Next(s, steps[0]), steps[1..]);
    }
  }
}

module MySqlRetention {
  import opened Common
  import opened Pastes
  import opened DataPolicy
  import opened MySqlStore
  import L = LockProtocol
  import R = LocalRetention

  /** Parsed, and not expiring in the first second of 1970, which the column cannot tell from never. */
  ghost predicate ParsedCall(call: Call) {
    && (call.Create? ==> R.Parsed(call.meta.dataPolicy, call.meta.expiresAt) && Storable(call.meta.expiresAt))
    && (call.SetDataPolicy? ==> R.Parsed(call.policy, call.expiresAt) && Storable(call.expiresAt))
  }

  predicate Storable(expiresAt: Option<int>) {
    expiresAt.Some? ==> !(0 <= expiresAt.value < SECOND)
  }

  ghost predicate AllCoherent(s: State) {
    && (forall k :: k in s.rows ==> Coherent(s.rows[k].meta))
    && (forall t :: t in s.threads ==> ParsedCall(s.threads[t].call))
  }

  lemma StoredIsCoherent(m: Metadata)
    requires R.Parsed(m.dataPolicy, m.expiresAt) && Storable(m.expiresAt)
    ensures Coherent(ReadBack(m))
  {
    R.ParsedIsCoherent(m);
    ReadBackIsCoherent(m);
  }

  lemma EffectCoherent(th: Thread, row: Option<Row>, nextGen: nat, now: int, ok: bool)
    requires ParsedCall(th.call) && (row.Some? ==> Coherent(row.value.meta))
    ensures var e := EffectOf(th, row, nextGen, now, ok); e.row.Put? ==> Coherent(e.row.value.meta)
  {
    if th.call.Create? { StoredIsCoherent(th.call.meta.(id := th.call.id, size := |th.call.source|)); }
    if row.Some? { ColumnsCoherent(th.call, row.value.meta); }
  }

  lemma ColumnsCoherent(call: Call, m: Metadata)
    requires ParsedCall(call) && Coherent(m)
    ensures Coherent(Columns(call, m))
  {
    if call.SetDataPolicy? {
      StoredIsCoherent(m.(dataPolicy := call.policy, expiresAt := call.expiresAt));
    }
  }

  lemma SqlCoherent(s: State, t: Tid, now: int, ok: bool)
    requires AllCoherent(s) && t in s.threads
    ensures AllCoherent(RunSql(s, t, now, ok))
  {
    var th := s.threads[t];
    EffectCoherent(th, RowAt(s, KeyOf(Target(th.call))), |s.births|, now, ok);
  }

  lemma StepCoherent(s: State, step: Step)
    requires AllCoherent(s) && Enabled(s, step) && (step.Begin? ==> ParsedCall(step.call))
    ensures AllCoherent(Next(s, step))
  {
    if step.Run? && LockStep(s, step.t).None? { SqlCoherent(s, step.t, step.now, step.ok); }
  }

  ghost predicate ParsedCalls(steps: seq<Step>) {
    forall i :: 0 <= i < |steps| && steps[i].Begin? ==> ParsedCall(steps[i].call)
  }

  /** The same of every row, whichever ids are in use. */
  lemma {:induction false} RowsStayCoherent(s: State, steps: seq<Step>)
    requires AllCoherent(s) && Legal(s, steps) && ParsedCalls(steps)
    ensures AllCoherent(RunAll(s, steps))
    decreases |steps|
  {
    if steps != [] {
      StepCoherent(s, steps[0]);
      assert forall i :: 0 <= i < |steps[1..]| ==> steps[1..][i] == steps[i + 1];
      RowsStayCoherent(Next(s, steps[0]), steps[1..]);
    }
  }
}
