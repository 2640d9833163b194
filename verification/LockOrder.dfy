/** The two kinds of locks together: the per-key locks of the local store and the one mutex around the
    cached paste list. A one-time View takes that mutex inside its key's critical section; everybody
    else takes it between calls. Nobody asks for a key lock with the mutex in hand. */
module LockOrder {
  import S = LocalStore
  import I = LocalStoreInv
  import Steps = LocalStoreSteps
  import T = LocalStoreTheorems
  import L = LockProtocol

  type Tid = L.Tid

  datatype CachePhase = Away | Asking(mode: L.Mode) | Inside(mode: L.Mode)

  datatype State = State(store: S.State, cache: map<Tid, CachePhase>)

  datatype Step =
    | Store(step: S.Step)
    | Ask(t: Tid, mode: L.Mode)
    | Enter(t: Tid)
    | Leave(t: Tid)

  function CacheOf(s: State, t: Tid): CachePhase {
    if t in s.cache then s.cache[t] else Away
  }

  /** Where a thread calls into the cache: outside any store call, or in a View that is about to
      return success and has not yet unlocked. */
  predicate MayAsk(s: S.State, t: Tid) {
    t in s.threads ==>
      s.threads[t].pc.Finished? || (s.threads[t].call.View? && s.threads[t].pc == S.Leave(S.Return(true)))
  }

  ghost predicate SomeIn(s: State, p: CachePhase) {
    exists t :: t in s.cache && s.cache[t] == p
  }

  /** A thread in the hands of the cache does nothing else. */
  ghost predicate Enabled(s: State, step: Step) {
    match step
    case Store(st) => S.Enabled(s.store, st) && CacheOf(s, st.t).Away?
    case Ask(t, _) => CacheOf(s, t).Away? && MayAsk(s.store, t)
    case Enter(t) =>
      && CacheOf(s, t).Asking?
      && !SomeIn(s, Inside(L.Exclusive))
      && (CacheOf(s, t).mode == L.Exclusive ==> !SomeIn(s, Inside(L.Shared)))
    case Leave(t) => CacheOf(s, t).Inside?
  }

  /** The same, with the turns that the mutexes keep among those waiting. */
  ghost predicate FairlyEnabled(s: State, step: Step, turn: L.Turn) {
    && Enabled(s, step)
    && (step.Store? && step.step.Run? && S.LockStep(s.store, step.step.t).Some? ==>
          L.FairlyEnabled(s.store.lk, S.LockStep(s.store, step.step.t).value, turn))
    && (step.Enter? ==>
          match turn
          case Writers => CacheOf(s, step.t).mode == L.Shared ==> !SomeIn(s, Asking(L.Exclusive))
          case Readers => CacheOf(s, step.t).mode == L.Exclusive ==> !SomeIn(s, Asking(L.Shared)))
  }

  function Next(s: State, step: Step): State
    requires Enabled(s, step)
  {
    match step
    case Store(st) => s.(store := S.Next(s.store, st))
    case Ask(t, mode) => s.(cache := s.cache[t := Asking(mode)])
    case Enter(t) => s.(cache := s.cache[t := Inside(CacheOf(s, t).mode)])
    case Leave(t) => s.(cache := s.cache[t := Away])
  }

  ghost predicate Inv(s: State) {
    && I.Inv(s.store)
    && (forall t :: !CacheOf(s, t).Away? ==> MayAsk(s.store, t))
    && Excluded(s)
  }

  /** Whoever is under the mutex together with another is reading. */
  ghost predicate Excluded(s: State) {
    forall t, u :: t != u && CacheOf(s, t).Inside? && CacheOf(s, u).Inside? ==> CacheOf(s, t).mode == L.Shared
  }

  lemma EnterExcludes(s: State, t: Tid)
    requires Excluded(s) && Enabled(s, Enter(t))
    ensures Excluded(Next(s, Enter(t)))
  {
    var s' := Next(s, Enter(t));
    forall u | u != t && CacheOf(s', u).Inside?
      ensures CacheOf(s', u).mode == L.Shared && CacheOf(s', t).mode == L.Shared
    {
      assert s.cache[u] == Inside(CacheOf(s', u).mode);
      assert SomeIn(s, Inside(CacheOf(s', u).mode));
    }
  }

  lemma OthersStay(s: S.State, st: S.Step, u: Tid)
    requires S.Enabled(s, st) && u != st.t
    ensures u in S.Next(s, st).threads <==> u in s.threads
    ensures u in s.threads ==> S.Next(s, st).threads[u] == s.threads[u]
  {
  }

  lemma StepInv(s: State, step: Step)
    requires Inv(s) && Enabled(s, step)
    ensures Inv(Next(s, step))
  {
    if step.Store? {
      Steps.StepInv(s.store, step.step);
      forall u | !CacheOf(s, u).Away? ensures MayAsk(Next(s, step).store, u) {
        OthersStay(s.store, step.step, u);
      }
    }
    if step.Enter? {
      EnterExcludes(s, step.t);
    } else {
      forall u | CacheOf(Next(s, step), u).Inside? ensures CacheOf(Next(s, step), u) == CacheOf(s, u) {
      }
    }
  }

  ghost predicate Legal(s: State, steps: seq<Step>)
    decreases |steps|
  {
    steps == [] || (Enabled(s, steps[0]) && Legal(Next(s, steps[0]), steps[1..]))
  }

  function Run(s: State, steps: seq<Step>): State
    requires Legal(s, steps)
    decreases |steps|
  {
    if steps == [] then s else Run(Next(s, steps[0]), steps[1..])
  }

  lemma {:induction false} RunInv(s: State, steps: seq<Step>)
    requires Inv(s) && Legal(s, steps)
    ensures Inv(Run(s, steps))
    decreases |steps|
  {
    if steps != [] {
      StepInv(s, steps[0]);
      RunInv(Next(s, steps[0]), steps[1..]);
    }
  }

  ghost predicate AtRest(s: State) {
    I.AtRest(s.store) && s.cache == map[]
  }

  /** Over every run: whoever holds or asks for the cache mutex is not waiting for a key lock, so the
      order is key lock first, cache mutex second, and never the other way round. */
  lemma KeyLockComesFirst(s: State, steps: seq<Step>, t: Tid)
    requires AtRest(s) && Legal(s, steps) && !CacheOf(Run(s, steps), t).Away?
    ensures var p := L.PhaseOf(Run(s, steps).store.lk, t); p.Idle? || p.Holding?
  {
    var r := Run(s, steps);
    I.AtRestInv(s.store);
    RunInv(s, steps);
    assert MayAsk(r.store, t);
    if t in r.store.threads {
      assert I.ThreadOk(r.store, t);
    }
  }

  /** And no reachable state is stuck: with a call unfinished, or the cache mutex held or asked for,
      some thread can go on, whosever turn it is. */
  lemma Progress(s: State, t: Tid, turn: L.Turn) returns (step: Step)
    requires Inv(s)
    requires (t in s.store.threads && !s.store.threads[t].pc.Finished?) || !CacheOf(s, t).Away?
    ensures FairlyEnabled(s, step, turn) && !step.Ask? && (step.Store? ==> step.step.Run?)
  {
    var first := if turn == L.Writers then L.Exclusive else L.Shared;
    if u :| u in s.cache && s.cache[u].Inside? {
      step := Leave(u);
    } else if u :| u in s.cache && s.cache[u] == Asking(first) {
      step := Enter(u);
    } else if u :| u in s.cache && s.cache[u].Asking? {
      step := Enter(u);
    } else {
      var u := T.Progress(s.store, t, turn);
      step := Store(S.Step.Run(u, 0, true));
    }
  }
}
