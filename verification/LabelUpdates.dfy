/** The label update of the local store: two critical sections, of which the second writes back the
    whole record that the first one read. When that changes only the label, which step of whom is to
    blame when it does not, and the runs in which it undoes an edit or a deletion. */
module LabelUpdates {
  import opened Common
  import opened Pastes
  import opened PasteHistory
  import opened LocalStore
  import opened LocalStoreInv
  import opened LocalStoreSteps
  import opened LocalRuns
  import opened LocalAlone
  import T = LocalStoreTheorems
  import L = LockProtocol

  // ---- Any run, state by state ----

  ghost predicate Trace(states: seq<State>, steps: seq<Step>) {
    && |states| == |steps| + 1 && AtRest(states[0])
    && forall i :: 0 <= i < |steps| ==> Enabled(states[i], steps[i]) && states[i + 1] == Next(states[i], steps[i])
  }

  lemma {:induction false} TraceInv(states: seq<State>, steps: seq<Step>, n: nat)
    requires Trace(states, steps) && n <= |steps|
    ensures Inv(states[n])
  {
    if n == 0 {
      AtRestInv(states[0]);
    } else {
      TraceInv(states, steps, n - 1);
      StepInv(states[n - 1], steps[n - 1]);
    }
  }

  /** The record a label update carries from its first section to its write. */
  function Carried(th: Thread): Option<Metadata> {
    if th.stage.Relabel? && (th.pc.Enter? || th.pc.Blocked? || th.pc.Inside? || th.pc.Writing?) then Some(th.stage.meta)
    else if (th.pc.Leave? || th.pc.Drop?) && th.pc.after.Reenter? &&
      th.pc.after.stage.Relabel? then Some(th.pc.after.stage.meta)
    else None
  }

  ghost predicate Carries(s: State, t: Tid, call: Call, m: Metadata) {
    t in s.threads && s.threads[t].call == call && Carried(s.threads[t]) == Some(m)
  }

  /** The first section decides: the sidecar is there, the token is the one in it, and the record
      carried on is that sidecar with the new label. */
  predicate Reads(s: State, t: Tid, call: Call, m: Metadata) {
    && call.SetLabel? && t in s.threads && s.threads[t] == Thread(call, First, Inside)
    && call.id in s.meta && ManageTokenOk(s.meta[call.id], call.token)
    && m == s.meta[call.id].(title := call.title)
  }

  /** A file step or decision starts to carry a record only where a first section reads it. */
  lemma EffectCarries(th: Thread, t: Tid, file: Option<File>, meta: Option<Metadata>, nextGen: nat, now: int, ok: bool)
    requires StageOk(th) && !th.pc.Leave? && !th.pc.Drop?
    ensures var pc := EffectOf(th, t, file, meta, nextGen, now, ok).pc;
      Carried(th.(pc := pc)).Some? ==>
        || (Carried(th.(pc := pc)) == Carried(th) && pc.Writing?)
        || (th.call.SetLabel? && th.stage == First && th.pc.Inside? && meta.Some? &&
          ManageTokenOk(meta.value, th.call.token)
            && Carried(th.(pc := pc)) == Some(meta.value.(title := th.call.title)))
        || th.pc.Enter? || th.pc.Blocked?
  {
  }

  lemma LockCarries(s: State, t: Tid)
    requires t in s.threads && LockStep(s, t).Some? && L.Enabled(s.lk, LockStep(s, t).value) && StageOk(s.threads[t])
    ensures var th, th' := s.threads[t], RunLock(s, t).threads[t];
      Carried(th').Some? ==> Carried(th) == Carried(th') && th.call == th'.call
  {
  }

  function FileEffect(s: State, t: Tid, now: int, ok: bool): Effect
    requires t in s.threads
  {
    var k := Target(s.threads[t].call);
    EffectOf(s.threads[t], t, FileAt(s, k), MetaAt(s, k), |s.births|, now, ok)
  }

  lemma FileMoves(s: State, t: Tid, now: int, ok: bool)
    requires t in s.threads
    ensures RunFile(s, t, now, ok).threads == s.threads[t := s.threads[t].(pc := FileEffect(s, t, now, ok).pc)]
  {
  }

  lemma CarriedByFile(s: State, t: Tid, now: int, ok: bool, call: Call, m: Metadata)
    requires t in s.threads && StageOk(s.threads[t]) && LockStep(s, t).None?
    requires Carries(RunFile(s, t, now, ok), t, call, m)
    ensures Carries(s, t, call, m) || Reads(s, t, call, m)
  {
    var k := Target(s.threads[t].call);
    FileMoves(s, t, now, ok);
    EffectCarries(s.threads[t], t, FileAt(s, k), MetaAt(s, k), |s.births|, now, ok);
  }

  lemma CarriedFrom(s: State, step: Step, t: Tid, call: Call, m: Metadata)
    requires Inv(s) && Enabled(s, step) && Carries(Next(s, step), t, call, m)
    ensures Carries(s, t, call, m) || Reads(s, t, call, m)
  {
    if t == step.t && step.Run? {
      assert StageOk(s.threads[t]) by { assert ThreadOk(s, t); }
      if LockStep(s, t).Some? {
        LockCarries(s, t);
      } else {
        CarriedByFile(s, t, step.now, step.ok, call, m);
      }
    }
  }

  lemma TraceStep(states: seq<State>, steps: seq<Step>, i: nat)
    requires Trace(states, steps) && i < |steps|
    ensures Inv(states[i]) && Enabled(states[i], steps[i]) && states[i + 1] == Next(states[i], steps[i])
  {
    TraceInv(states, steps, i);
  }

  lemma NothingCarriedAtRest(s: State, t: Tid, call: Call, m: Metadata)
    requires AtRest(s)
    ensures !Carries(s, t, call, m)
  {
  }

  lemma CarriedStep(states: seq<State>, steps: seq<Step>, t: Tid, call: Call, m: Metadata, n: nat)
    requires Trace(states, steps) && n <= |steps| && Carries(states[n], t, call, m)
    ensures n > 0 && (Carries(states[n - 1], t, call, m) || Reads(states[n - 1], t, call, m))
  {
    NothingCarriedAtRest(states[0], t, call, m);
    var i := n - 1;
    TraceStep(states, steps, i);
    CarriedFrom(states[i], steps[i], t, call, m);
  }

  /** What never begins but by `start` has begun once and lasted since. */
  lemma {:induction false} LastsSince(lasts: seq<bool>, start: seq<bool>, n: nat) returns (i: nat)
    requires |lasts| == |start| && n < |lasts| && lasts[n] && !lasts[0]
    requires forall j :: 0 < j < |lasts| && lasts[j] ==> lasts[j - 1] || start[j - 1]
    ensures i < n && start[i] && forall j :: i < j <= n ==> lasts[j]
  {
    if lasts[n - 1] {
      i := LastsSince(lasts, start, n - 1);
    } else {
      i := n - 1;
    }
  }

  /** So a record that is carried was read in an earlier state, and carried ever since. */
  lemma ReadBefore(states: seq<State>, steps: seq<Step>, t: Tid, call: Call, m: Metadata, n: nat) returns (i: nat)
    requires Trace(states, steps) && n <= |steps| && Carries(states[n], t, call, m)
    ensures i < n && Reads(states[i], t, call, m)
    ensures forall j :: i < j <= n ==> Carries(states[j], t, call, m)
  {
    var carries := seq(|states|, j requires 0 <= j < |states| => Carries(states[j], t, call, m));
    var starts := seq(|states|, j requires 0 <= j < |states| => Reads(states[j], t, call, m));
    forall j | 0 <= j < |states| && carries[j] ensures j > 0 && (carries[j - 1] || starts[j - 1]) {
      CarriedStep(states, steps, t, call, m, j);
    }
    i := LastsSince(carries, starts, n);
    forall j | i < j <= n ensures Carries(states[j], t, call, m) {
      assert carries[j];
    }
  }

  /** Until its write the thread itself changes no sidecar. */
  lemma CarryingWritesNothing(s: State, step: Step, call: Call, m: Metadata)
    requires Inv(s) && Enabled(s, step)
    requires Carries(s, step.t, call, m) || Reads(s, step.t, call, m)
    requires Carries(Next(s, step), step.t, call, m)
    ensures Next(s, step).meta == s.meta
  {
    var t := step.t;
    assert ThreadOk(s, t);
    if step.Run? {
      if LockStep(s, t).Some? {
        T.LockStepKeepsFiles(s, t);
      } else {
        var k := Target(s.threads[t].call);
        CarryingEffect(s.threads[t], t, FileAt(s, k), MetaAt(s, k), |s.births|, step.now, step.ok);
      }
    }
  }

  lemma CarryingEffect(th: Thread, t: Tid, file: Option<File>, meta: Option<Metadata>, nextGen: nat, now: int, ok: bool)
    requires StageOk(th) && (Carried(th).Some? || (th.call.SetLabel? && th.pc.Inside?))
    requires !th.pc.Leave? && !th.pc.Drop?
    ensures var e := EffectOf(th, t, file, meta, nextGen, now, ok);
      Carried(th.(pc := e.pc)).Some? ==> e.sidecar.Keep?
  {
  }

  /** A sidecar but for its label. */
  function Bare(m: Option<Metadata>): Option<Metadata> {
    if m.Some? then Some(m.value.(title := "")) else None
  }

  lemma {:induction false} ChangedBetween(states: seq<State>, k: Key, i: nat, n: nat) returns (j: nat)
    requires i <= n < |states| && Bare(MetaAt(states[i], k)) != Bare(MetaAt(states[n], k))
    ensures i <= j < n && Bare(MetaAt(states[j], k)) != Bare(MetaAt(states[j + 1], k))
    decreases n
  {
    if Bare(MetaAt(states[n - 1], k)) == Bare(MetaAt(states[n], k)) {
      j := ChangedBetween(states, k, i, n - 1);
    } else {
      j := n - 1;
    }
  }

  /** After the step the sidecar is the one before it with the new label and nothing else changed. */
  predicate ChangesOnlyLabel(s: State, s': State, k: Key, title: string) {
    k in s.meta && k in s'.meta && s'.meta[k] == s.meta[k].(title := title)
  }

  lemma WriteStep(s: State, t: Tid, now: int, ok: bool)
    requires Inv(s) && Enabled(s, Run(t, now, ok)) && s.threads[t].pc.Writing?
    ensures var s' := Next(s, Run(t, now, ok)); var k := Target(s.threads[t].call);
      k in s'.meta && s'.meta[k] == s.threads[t].pc.meta
  {
    var th := s.threads[t];
    var k := Target(th.call);
    assert ThreadOk(s, t);
    T.CommitMeta(s, t, EffectOf(th, t, FileAt(s, k), MetaAt(s, k), |s.births|, now, ok), k);
    assert MetaAt(Next(s, Run(t, now, ok)), k) == Some(th.pc.meta);
  }

  /** A label update at its write, in any run: there is one earlier moment, in its first section, whose
      sidecar it writes back. It changes only the label if and only if the sidecar is still that one
      but for the label. */
  lemma LabelUpdateIsExact(states: seq<State>, steps: seq<Step>, t: Tid, now: int, ok: bool) returns (i: nat)
    requires Trace(states, steps)
    requires var r := states[|steps|];
      Enabled(r, Run(t, now, ok)) && r.threads[t].call.SetLabel? && r.threads[t].pc.Writing?
    ensures i < |steps|
    ensures var r := states[|steps|]; var call := r.threads[t].call; var r' := Next(r, Run(t, now, ok));
      && Reads(states[i], t, call, r.threads[t].pc.meta)
      && (forall j :: i < j <= |steps| ==> Carries(states[j], t, call, r.threads[t].pc.meta))
      && call.id in r'.meta && r'.meta[call.id] == states[i].meta[call.id].(title := call.title)
      && (ChangesOnlyLabel(r, r', call.id, call.title) <==>
        Bare(MetaAt(r, call.id)) == Bare(MetaAt(states[i], call.id)))
  {
    var n := |steps|;
    var r := states[n];
    var call, m := r.threads[t].call, r.threads[t].pc.meta;
    TraceInv(states, steps, n);
    LabelWriting(r, t);
    i := ReadBefore(states, steps, t, call, m, n);
    LabelWrite(r, t, now, ok, states[i].meta[call.id]);
  }

  /** What the write does to the sidecar, whatever record it was made of. */
  lemma LabelWrite(r: State, t: Tid, now: int, ok: bool, read: Metadata)
    requires Inv(r) && Enabled(r, Run(t, now, ok)) && r.threads[t].call.SetLabel? && r.threads[t].pc.Writing?
    requires r.threads[t].pc.meta == read.(title := r.threads[t].call.title)
    ensures var call := r.threads[t].call; var r' := Next(r, Run(t, now, ok));
      && call.id in r'.meta && r'.meta[call.id] == read.(title := call.title)
      && (ChangesOnlyLabel(r, r', call.id, call.title) <==> Bare(MetaAt(r, call.id)) == Bare(Some(read)))
  {
    WriteStep(r, t, now, ok);
    LabelOnly(MetaAt(r, r.threads[t].call.id), read, r.threads[t].call.title);
  }

  /** A label update that is about to write writes the record it carries. */
  lemma LabelWriting(s: State, t: Tid)
    requires Inv(s) && t in s.threads && s.threads[t].call.SetLabel? && s.threads[t].pc.Writing?
    ensures Carries(s, t, s.threads[t].call, s.threads[t].pc.meta)
  {
    assert ThreadOk(s, t);
  }

  lemma LabelOnly(now: Option<Metadata>, read: Metadata, title: string)
    ensures now.Some? && read.(title := title) == now.value.(title := title) <==> Bare(now) == Bare(Some(read))
  {
    if Bare(now) == Bare(Some(read)) {
      assert now.value.(title := "").(title := title) == read.(title := "").(title := title);
    }
  }

  /** And when it changes more, somebody else wrote or removed the sidecar between its two sections,
      by a step that changed more than the label. */
  lemma LostUpdateHasOtherWriter(states: seq<State>, steps: seq<Step>, t: Tid, now: int, ok: bool)
    returns (i: nat, j: nat)
    requires Trace(states, steps)
    requires var r := states[|steps|];
      && Enabled(r, Run(t, now, ok)) && r.threads[t].call.SetLabel? && r.threads[t].pc.Writing?
      && !ChangesOnlyLabel(r, Next(r, Run(t, now, ok)), r.threads[t].call.id, r.threads[t].call.title)
    ensures var r := states[|steps|]; var k := r.threads[t].call.id;
      && i <= j < |steps| && Reads(states[i], t, r.threads[t].call, r.threads[t].pc.meta)
      && steps[j].t != t && Bare(MetaAt(states[j], k)) != Bare(MetaAt(states[j + 1], k))
  {
    var r := states[|steps|];
    var call, m := r.threads[t].call, r.threads[t].pc.meta;
    i := LabelUpdateIsExact(states, steps, t, now, ok);
    j := ChangedBetween(states, call.id, i, |steps|);
    TraceInv(states, steps, j);
    if steps[j].t == t {
      assert Carries(states[j + 1], t, call, m);
      CarryingWritesNothing(states[j], steps[j], call, m);
    }
  }

  // ---- Sidecars without content ----

  lemma NoSidecarFromNothing(th: Thread, t: Tid, h: History, now: int, ok: bool)
    requires StageOk(th) && Knows(th, t, None, None, h)
    ensures EffectOf(th, t, None, None, |h.births|, now, ok).sidecar.Put? ==> th.call.SetLabel? && th.pc.Writing?
  {
  }

  /** Where there was neither content nor sidecar, only the write of a label update leaves a sidecar. */
  lemma OrphansComeFromLabels(s: State, step: Step, k: Key)
    requires Inv(s) && Enabled(s, step) && k !in s.content && k !in s.meta && k in Next(s, step).meta
    ensures step.Run? && s.threads[step.t].call.SetLabel? && s.threads[step.t].pc.Writing? &&
      Target(s.threads[step.t].call) == k
  {
    if step.Run? {
      var t := step.t;
      var th := s.threads[t];
      assert ThreadOk(s, t);
      if LockStep(s, t).Some? {
        T.LockStepKeepsFiles(s, t);
      } else {
        var j := Target(th.call);
        var e := EffectOf(th, t, FileAt(s, j), MetaAt(s, j), |s.births|, step.now, step.ok);
        if e.sidecar.Put? { SidecarId(th, t, FileAt(s, j), MetaAt(s, j), HistoryOf(s), step.now, step.ok); }
        T.CommitMeta(s, t, e, k);
        assert MetaAt(Next(s, step), k).Some?;
        NoSidecarFromNothing(th, t, HistoryOf(s), step.now, step.ok);
      }
    }
  }

  lemma SidecarId(th: Thread, t: Tid, file: Option<File>, meta: Option<Metadata>, h: History, now: int, ok: bool)
    requires Knows(th, t, file, meta, h)
    ensures var e := EffectOf(th, t, file, meta, |h.births|, now, ok); e.sidecar.Put? ==>
      e.sidecar.value.id == Target(th.call)
  {
  }

  // ---- The runs that lose something ----

  /** A directory at rest and a label update its manager is entitled to. */
  ghost predicate CanRelabel(s: State, call: Call, now: int) {
    && AtRest(s) && call.SetLabel? && ValidID(call.id) && !call.token.blank && call.id in s.meta
    && Manages(call, s.meta[call.id], now)
  }

  /** The paste has not expired and the token is its manage token. */
  predicate Manages(call: Call, m: Metadata, now: int)
    requires call.SetLabel? || call.SetPassword? || call.ClearPassword? || call.SetDataPolicy?
  {
    && (m.expiresAt.None? || m.expiresAt.value >= now || Lower(m.dataPolicy) == "permanent")
    && m.manageTokenHash != "" && call.token.hash == m.manageTokenHash
  }

  /** A change of password or policy that will be made: a first password, the removal of one that is
      known or of none, or any policy. */
  predicate CanEdit(edit: Call, m: Metadata, now: int) {
    && (edit.SetPassword? || edit.ClearPassword? || edit.SetDataPolicy?)
    && ValidID(edit.id) && !edit.token.blank && Manages(edit, m, now)
    && (edit.SetPassword? ==> m.passwordHash == "")
    && (edit.ClearPassword? && m.passwordHash != "" ==>
      !edit.password.blank && edit.password.hash == m.passwordHash)
  }

  lemma AtRestUnlocked(s: State)
    requires AtRest(s)
    ensures Unlocked(s)
  {
    L.InitInv();
  }

  /** The files of other keys than `k` are the same. */
  ghost predicate SameElsewhere(s: State, r: State, k: Key) {
    forall j :: j != k ==> FileAt(r, j) == FileAt(s, j) && MetaAt(r, j) == MetaAt(s, j)
  }

  lemma OneSidecar(s: State, r: State, k: Key)
    requires SameElsewhere(s, r, k) && FileAt(r, k) == FileAt(s, k) && k in r.meta
    ensures r.content == s.content && r.meta == s.meta[k := r.meta[k]]
  {
    forall j ensures j in r.content <==> j in s.content {
      assert FileAt(r, j) == FileAt(s, j);
    }
    forall j | j in r.content ensures r.content[j] == s.content[j] {
      assert FileAt(r, j) == FileAt(s, j);
    }
    forall j ensures j in r.meta <==> j in s.meta || j == k {
      assert MetaAt(r, j) == MetaAt(s, j) || j == k;
    }
    forall j | j in r.meta ensures r.meta[j] == s.meta[k := r.meta[k]][j] {
      assert MetaAt(r, j) == MetaAt(s, j) || j == k;
    }
  }

  lemma DoEdit(s: State, t: Tid, edit: Call, now: int) returns (steps: seq<Step>, r: State)
    requires t !in s.threads && Unlocked(s) && Target(edit) in s.meta && CanEdit(edit, s.meta[Target(edit)], now)
    requires s.meta[edit.id].id == edit.id
    ensures Leads(s, steps, r) && Unlocked(r) && Only(s, r, t, edit.id)
    ensures r.threads[t].call == edit && r.threads[t].pc == Finished(true)
    ensures FileAt(r, edit.id) == FileAt(s, edit.id) && edit.id in r.meta && r.meta[edit.id].id == edit.id
  {
    if edit.SetDataPolicy? {
      steps, r := PolicyAlone(s, t, edit, now);
    } else if edit.SetPassword? {
      steps, r := SetPasswordAlone(s, t, edit, now);
    } else {
      steps, r := ClearPasswordAlone(s, t, edit, now);
    }
    assert MetaAt(r, edit.id).Some?;
  }

  /** From every directory at rest, for every label update and every change of password or policy of
      the same paste: both can report success, one after the other, with the change undone. */
  lemma EditCanBeLost(s: State, call: Call, edit: Call, now: int) returns (steps: seq<Step>, r: State)
    requires CanRelabel(s, call, now) && Target(edit) == call.id && CanEdit(edit, s.meta[call.id], now)
    ensures Leads(s, steps, r)
    ensures r.threads.Keys == {0, 1} && r.threads[0].call == call && r.threads[1].call == edit
    ensures r.threads[0].pc == Finished(true) && r.threads[1].pc == Finished(true)
    ensures r.content == s.content && r.meta == s.meta[call.id := s.meta[call.id].(title := call.title)]
  {
    var k, m := call.id, s.meta[call.id].(title := call.title);
    AtRestUnlocked(s);
    var first, s1 := LabelFirst(s, 0, call, now);
    assert MetaAt(s1, k) == Some(s.meta[k]);
    var second, s2 := DoEdit(s1, 1, edit, now);
    Chain(s, first, s1, second, s2);
    assert SameElsewhere(s, s2, k);
    var third;
    third, r := LabelSecond(s2, 0, call, now);
    Chain(s, first + second, s2, third, r);
    steps := first + second + third;
    assert MetaAt(r, k) == Some(m) && SameElsewhere(s, r, k);
    OneSidecar(s, r, k);
  }

  /** A label update and, between its two sections, the deletion of its paste. */
  lemma DeletedBetween(s: State, call: Call, now: int) returns (steps: seq<Step>, r: State)
    requires CanRelabel(s, call, now)
    ensures Leads(s, steps, r) && Unlocked(r) && call.id !in r.content && call.id !in r.meta
    ensures r.threads.Keys == {0, 1}
    ensures r.threads[0] == Thread(call, Relabel(s.meta[call.id].(title := call.title)), Enter)
    ensures r.threads[1].call == AdminDelete(call.id) && r.threads[1].pc == Finished(true)
  {
    AtRestUnlocked(s);
    var first, s1 := LabelFirst(s, 0, call, now);
    assert MetaAt(s1, call.id) == Some(s.meta[call.id]);
    var second;
    second, r := AdminDeleteAlone(s1, 1, call.id, now);
    Chain(s, first, s1, second, r);
    steps := first + second;
    assert FileAt(r, call.id).None? && MetaAt(r, call.id).None?;
  }

  /** And a paste deleted between the two sections comes back as a sidecar without content: no call
      is at work any more, there is no paste, and yet every Create of its code is refused. */
  lemma DeletedSidecarCanComeBack(s: State, call: Call, create: Call, now: int) returns (steps: seq<Step>, r: State)
    requires CanRelabel(s, call, now) && create.Create? && create.custom && create.id == call.id
    ensures Leads(s, steps, r)
    ensures call.id !in r.content && call.id in r.meta && r.meta[call.id] == s.meta[call.id].(title := call.title)
    ensures r.threads.Keys == {0, 1, 2} && r.threads[0].call == call && r.threads[2].call == create
    ensures r.threads[1].call == AdminDelete(call.id) && r.threads[2].pc == Finished(false)
    ensures r.threads[0].pc == Finished(true) && r.threads[1].pc == Finished(true)
  {
    var first, s1 := DeletedBetween(s, call, now);
    var second, s2 := LabelSecond(s1, 0, call, now);
    Chain(s, first, s1, second, s2);
    assert MetaAt(s2, call.id) == Some(s.meta[call.id].(title := call.title));
    var third;
    third, r := CreateAlone(s2, 2, create, now, true);
    Chain(s, first + second, s2, third, r);
    steps := first + second + third;
    assert FileAt(r, call.id).None? && MetaAt(r, call.id).Some?;
  }

  /** Worse, a new paste created under the code in between comes under the old record: its body is the
      new one, and its password, its tokens and its policy are those of the deleted paste. */
  lemma NewPasteGetsOldSidecar(s: State, call: Call, create: Call, now: int) returns (steps: seq<Step>, r: State)
    requires CanRelabel(s, call, now) && create.Create? && create.custom && create.id == call.id
    ensures Leads(s, steps, r)
    ensures r.threads.Keys == {0, 1, 2} && r.threads[0].call == call && r.threads[2].call == create
    ensures forall t :: t in r.threads ==> r.threads[t].pc == Finished(true)
    ensures call.id in r.content && r.content[call.id].published && r.content[call.id].bytes == create.source
    ensures call.id in r.meta && r.meta[call.id] == s.meta[call.id].(title := call.title)
  {
    var first, s1 := DeletedBetween(s, call, now);
    var second, s2 := CreateAlone(s1, 2, create, now, true);
    Chain(s, first, s1, second, s2);
    assert FileAt(s2, call.id).Some? && MetaAt(s2, call.id).Some?;
    var third;
    third, r := LabelSecond(s2, 0, call, now);
    Chain(s, first + second, s2, third, r);
    steps := first + second + third;
    assert FileAt(r, call.id).Some? && MetaAt(r, call.id) == Some(s.meta[call.id].(title := call.title));
  }
}
