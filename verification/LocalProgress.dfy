/** Calls of the local store end: every step of a thread but the start of a call brings it closer to
    the end of its call, whatever the others do. */
module LocalProgress {
  import opened Common
  import opened Pastes
  import opened LocalStore
  import opened LocalStoreInv
  import Steps = LocalStoreSteps
  import T = LocalStoreTheorems
  import L = LockProtocol

  /** How far a program counter is from the end of its critical section. */
  function Rank(pc: Pc): nat {
    match pc
    case Reserve => 16
    case ReserveMeta => 15
    case Enter => 14
    case Blocked => 13
    case Inside => 12
    case Opening(_, _) => 11
    case Serving(_, _, _, _) => 10
    case Fill(_) => 11
    case Publish(_) => 10
    case Abort(_) => 9
    case Purge(_) => 9
    case PurgeMeta => 8
    case Erase => 7
    case EraseMeta => 6
    case Writing(_) => 5
    case Leave(_) => 2
    case Drop(_) => 1
    case Finished(_) => 0
  }

  /** How many critical sections may still begin after this one. */
  function Sections(th: Thread): nat {
    if Sweeps(th.call) then |th.call.todo| else if th.stage == First then 1 else 0
  }

  function Distance(th: Thread): nat {
    17 * Sections(th) + Rank(th.pc)
  }

  lemma LockLowers(s: State, t: Tid)
    requires t in s.threads && StageOk(s.threads[t])
    requires LockStep(s, t).Some? && L.Enabled(s.lk, LockStep(s, t).value)
    ensures var s' := RunLock(s, t);
      && t in s'.threads && Distance(s'.threads[t]) < Distance(s.threads[t])
      && (forall u :: u != t ==>
            (u in s.threads <==> u in s'.threads) && (u in s.threads ==> s'.threads[u] == s.threads[u]))
  {
  }

  lemma EffectLowers(th: Thread, t: Tid, file: Option<File>, m: Option<Metadata>, nextGen: nat, now: int, ok: bool)
    requires !th.pc.Enter? && !th.pc.Blocked? && !th.pc.Leave? && !th.pc.Drop? && !th.pc.Finished?
    ensures Rank(EffectOf(th, t, file, m, nextGen, now, ok).pc) < Rank(th.pc)
  {
  }

  lemma FileLowers(s: State, t: Tid, now: int, ok: bool)
    requires t in s.threads && LockStep(s, t).None? && !s.threads[t].pc.Finished?
    ensures var s' := RunFile(s, t, now, ok);
      && t in s'.threads && Distance(s'.threads[t]) < Distance(s.threads[t])
      && (forall u :: u != t ==>
            (u in s.threads <==> u in s'.threads) && (u in s.threads ==> s'.threads[u] == s.threads[u]))
  {
    var k := Target(s.threads[t].call);
    EffectLowers(s.threads[t], t, FileAt(s, k), MetaAt(s, k), |s.births|, now, ok);
  }

  lemma RunLowers(s: State, t: Tid, now: int, ok: bool)
    requires Inv(s) && Enabled(s, Run(t, now, ok))
    ensures var s' := Next(s, Run(t, now, ok));
      && t in s'.threads && Distance(s'.threads[t]) < Distance(s.threads[t])
      && (forall u :: u != t ==>
            (u in s.threads <==> u in s'.threads) && (u in s.threads ==> s'.threads[u] == s.threads[u]))
  {
    assert StageOk(s.threads[t]) by { assert ThreadOk(s, t); }
    if LockStep(s, t).Some? {
      LockLowers(s, t);
    } else {
      FileLowers(s, t, now, ok);
    }
  }

  function Distances(s: State): map<Tid, nat> {
    map t | t in s.threads :: Distance(s.threads[t])
  }

  predicate NoNewCalls(steps: seq<Step>) {
    forall i :: 0 <= i < |steps| ==> steps[i].Run?
  }

  lemma StepLowers(s: State, step: Step, n: nat)
    requires Inv(s) && Enabled(s, step) && step.Run? && forall t :: t in s.threads ==> t < n
    ensures Inv(Next(s, step)) && forall t :: t in Next(s, step).threads ==> t < n
    ensures Total(Distances(Next(s, step)), n) < Total(Distances(s), n)
  {
    RunLowers(s, step.t, step.now, step.ok);
    Steps.StepInv(s, step);
    TotalDrops(Distances(s), Distances(Next(s, step)), n, step.t);
  }

  lemma {:induction false} RunsAreBounded(s: State, steps: seq<Step>, n: nat)
    requires Inv(s) && T.Legal(s, steps) && NoNewCalls(steps) && forall t :: t in s.threads ==> t < n
    ensures |steps| <= Total(Distances(s), n)
    decreases |steps|
  {
    if steps != [] {
      StepLowers(s, steps[0], n);
      assert forall i :: 0 <= i < |steps[1..]| ==> steps[1..][i] == steps[i + 1];
      RunsAreBounded(Next(s, steps[0]), steps[1..], n);
    }
  }

  /** From every reachable state: without new calls there are only finitely many steps, in whatever
      order the threads take them. With `Progress`, a run that cannot go on has finished every call. */
  lemma CallsEnd(s: State) returns (bound: nat)
    requires Inv(s)
    ensures forall steps :: T.Legal(s, steps) && NoNewCalls(steps) ==> |steps| <= bound
    ensures forall steps, turn :: T.Legal(s, steps) && NoNewCalls(steps) && CannotGoOn(T.Run(s, steps), turn) ==>
      forall t :: t in T.Run(s, steps).threads ==> T.Run(s, steps).threads[t].pc.Finished?
  {
    var n := Bounded(s.threads.Keys);
    bound := Total(Distances(s), n);
    forall steps | T.Legal(s, steps) && NoNewCalls(steps) ensures |steps| <= bound {
      RunsAreBounded(s, steps, n);
    }
    forall steps, turn | T.Legal(s, steps) && NoNewCalls(steps) && CannotGoOn(T.Run(s, steps), turn)
      ensures forall t :: t in T.Run(s, steps).threads ==> T.Run(s, steps).threads[t].pc.Finished?
    {
      T.RunInv(s, steps);
      AllFinished(T.Run(s, steps), turn);
    }
  }

  lemma SomeoneGoesOn(s: State, t: Tid, turn: L.Turn)
    requires Inv(s) && t in s.threads && !s.threads[t].pc.Finished?
    ensures !CannotGoOn(s, turn)
  {
    var u := T.Progress(s, t, turn);
    assert Enabled(s, Run(u, 0, true));
  }

  lemma AllFinished(s: State, turn: L.Turn)
    requires Inv(s) && CannotGoOn(s, turn)
    ensures forall t :: t in s.threads ==> s.threads[t].pc.Finished?
  {
    forall t | t in s.threads ensures s.threads[t].pc.Finished? {
      if !s.threads[t].pc.Finished? {
        SomeoneGoesOn(s, t, turn);
      }
    }
  }

  /** Nobody can take a step, those refused a lock because it is the others' turn included. */
  ghost predicate CannotGoOn(s: State, turn: L.Turn) {
    forall t, now, ok :: Enabled(s, Run(t, now, ok)) ==>
      LockStep(s, t).Some? && !L.FairlyEnabled(s.lk, LockStep(s, t).value, turn)
  }
}
