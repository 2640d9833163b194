/** The local paste store as a transition system: any number of calls run concurrently, each step
    is one lock operation, one file operation or one decision, and steps interleave freely.
    Lock steps are steps of `LockProtocol`. File operations do not fail. */
module LocalStore {
  import opened Common
  import opened Pastes
  import opened PasteHistory
  import L = LockProtocol

  type Key = string
  type Tid = L.Tid

  datatype Call =
    | Create(id: Key, custom: bool, source: seq<byte>, meta: Metadata)
    | Open(id: Key, password: Secret)
    | View(id: Key, password: Secret)
    | Delete(id: Key, token: Secret)
    | DeleteManaged(id: Key, token: Secret)
    | AdminDelete(id: Key)
    | AdminDeleteAll(todo: seq<Key>)
    | CleanupExpired(todo: seq<Key>, cutoff: int)
    | ListPastes(todo: seq<Key>)
    | ManageMetadata(id: Key, token: Secret)
    | SetLabel(id: Key, token: Secret, title: string)
    | SetPassword(id: Key, token: Secret, hash: string)
    | ClearPassword(id: Key, token: Secret, password: Secret)
    | SetDataPolicy(id: Key, token: Secret, policy: string, expiresAt: Option<int>)

  /** Which critical section of its call a thread is in. */
  datatype Stage = First | Upgraded | Relabel(meta: Metadata)

  /** What the thread does once the reference is dropped. */
  datatype After = Return(ok: bool) | Reenter(stage: Stage) | NextKey

  datatype Pc =
    | Reserve                              // os.Stat of the content path, no lock held
    | ReserveMeta                          // os.Stat of the sidecar path, no lock held
    | Enter                                // about to call Lock or RLock
    | Blocked                              // reference taken, waiting for the mutex
    | Inside                               // lock just acquired
    | Purge(at: int) | PurgeMeta           // expired at `at`: remove content, then sidecar
    | Opening(meta: Metadata, at: int)     // all checks passed at `at`, about to open the content
    | Serving(meta: Metadata, at: int, gen: nat, body: seq<byte>)   // content open, the callback is running
    | Erase | EraseMeta                    // remove content, then sidecar
    | Writing(meta: Metadata)              // about to replace the sidecar
    | Fill(gen: nat)                       // content file created exclusively, copying the body
    | Publish(gen: nat)                    // body copied, about to write the sidecar
    | Abort(gen: nat)                      // the body failed, about to remove the content
    | Leave(after: After)                  // about to unlock
    | Drop(after: After)                   // mutex released, reference still counted
    | Finished(ok: bool)

  datatype Thread = Thread(call: Call, stage: Stage, pc: Pc)

  /** A content file. `gen` numbers creations; `creator` and `consumer` are history only. */
  datatype File = File(gen: nat, bytes: seq<byte>, published: bool, creator: Tid, consumer: Option<Tid>)

  /** `births`, `log` and `loose` are history only. */
  datatype State = State(
    lk: L.State,
    content: map<Key, File>,
    meta: map<Key, Metadata>,
    threads: map<Tid, Thread>,
    births: seq<Birth>,
    log: seq<Event>,
    loose: set<nat>)

  datatype Step =
    | Begin(t: Tid, call: Call)
    | Run(t: Tid, now: int, ok: bool)  // `now`: what the clock says; `ok`: outcome of a callback or a body

  // ---- Calls ----

  predicate Sweeps(call: Call) {
    call.AdminDeleteAll? || call.CleanupExpired? || call.ListPastes?
  }

  function Target(call: Call): Key {
    match call
    case AdminDeleteAll(todo) => if todo == [] then "" else todo[0]
    case CleanupExpired(todo, _) => if todo == [] then "" else todo[0]
    case ListPastes(todo) => if todo == [] then "" else todo[0]
    case _ => call.id
  }

  function Rest(call: Call): Call
    requires Sweeps(call)
  {
    match call
    case AdminDeleteAll(todo) => AdminDeleteAll(if todo == [] then [] else todo[1..])
    case CleanupExpired(todo, cutoff) => CleanupExpired(if todo == [] then [] else todo[1..], cutoff)
    case ListPastes(todo) => ListPastes(if todo == [] then [] else todo[1..])
  }

  predicate Exhausted(call: Call) {
    Sweeps(call) && call.todo == []
  }

  /** The checks made before any lock: the id is valid and the token is not blank. */
  predicate Accepted(call: Call) {
    match call
    case AdminDeleteAll(_) => true
    case CleanupExpired(_, _) => true
    case ListPastes(_) => true
    case Create(_, _, _, _) => ValidID(call.id)
    case Open(_, _) => ValidID(call.id)
    case View(_, _) => ValidID(call.id)
    case AdminDelete(_) => ValidID(call.id)
    case _ => ValidID(call.id) && !call.token.blank
  }

  function FirstPc(call: Call): Pc {
    if !Accepted(call) then Finished(false)
    else if call.Create? then Reserve
    else if Exhausted(call) then Finished(true)
    else Enter
  }

  function ModeOf(th: Thread): L.Mode {
    if th.call.View? && th.stage == First then L.Shared else L.Exclusive
  }

  function PhaseOf(s: State, t: Tid): L.Phase {
    L.PhaseOf(s.lk, t)
  }

  // ---- Steps ----

  /** The lock step a program counter stands for, if it stands for one. */
  function LockStep(s: State, t: Tid): Option<L.Step>
    requires t in s.threads
  {
    var th := s.threads[t];
    match th.pc
    case Enter => Some(L.TakeRef(t, Target(th.call), ModeOf(th)))
    case Blocked => Some(L.Acquire(t))
    case Leave(_) => Some(L.Unlock(t))
    case Drop(_) => Some(L.DropRef(t))
    case _ => None
  }

  predicate Enabled(s: State, step: Step) {
    var t := step.t;
    match step
    case Begin(_, _) => t in s.threads ==> s.threads[t].pc.Finished?
    case Run(_, _, _) =>
      && t in s.threads && !s.threads[t].pc.Finished?
      && (LockStep(s, t).Some? ==> L.Enabled(s.lk, LockStep(s, t).value))
  }

  function Goto(s: State, t: Tid, pc: Pc): State
    requires t in s.threads
  {
    s.(threads := s.threads[t := s.threads[t].(pc := pc)])
  }

  /** The thread that continues after a critical section. */
  function Resume(th: Thread, after: After): Thread {
    match after
    case Return(ok) => th.(pc := Finished(ok))
    case Reenter(stage) => Thread(th.call, stage, Enter)
    case NextKey =>
      if !Sweeps(th.call) then th.(pc := Finished(true))
      else if Exhausted(Rest(th.call)) then Thread(Rest(th.call), First, Finished(true))
      else Thread(Rest(th.call), First, Enter)
  }

  function Done(call: Call, ok: bool): After {
    if Sweeps(call) then NextKey else Return(ok)
  }

  /** First decision of a critical section: what the sidecar read under the lock leads to. */
  function Decide(th: Thread, m: Option<Metadata>, now: int): Pc {
    match th.call
    case AdminDelete(_) => Erase
    case AdminDeleteAll(_) => Erase
    case ListPastes(_) => Leave(NextKey)
    case CleanupExpired(_, cutoff) =>
      if m.Some? && IsExpired(m.value, cutoff) then Purge(cutoff) else Leave(NextKey)
    case Delete(_, token) =>
      if m.None? then Leave(Return(false))
      else if !DeleteTokenOk(m.value, token) then Leave(Return(false))
      else Erase
    case Create(_, _, _, _) => Leave(Return(false))
    case Open(_, password) =>
      if m.None? then Leave(Return(false))
      else if IsExpired(m.value, now) then Purge(now)
      else if !PasswordOk(m.value, password) then Leave(Return(false))
      else Opening(m.value, now)
    case View(_, password) =>
      if m.None? then Leave(Return(false))
      else if IsExpired(m.value, now) then Purge(now)
      else if !PasswordOk(m.value, password) then Leave(Return(false))
      else if IsOnce(m.value) && th.stage == First then Leave(Reenter(Upgraded))
      else Opening(m.value, now)
    case _ =>
      if th.stage.Relabel? then Writing(th.stage.meta)
      else if m.None? then Leave(Return(false))
      else if IsExpired(m.value, now) then Purge(now)
      else if !ManageTokenOk(m.value, th.call.token) then Leave(Return(false))
      else Managed(th.call, m.value)
  }

  /** The token-checked operations once their checks have passed. */
  function Managed(call: Call, m: Metadata): Pc {
    match call
    case DeleteManaged(_, _) => Erase
    case SetLabel(_, _, title) => Leave(Reenter(Relabel(m.(title := title))))
    case SetPassword(_, _, hash) => if m.passwordHash != "" then Leave(Return(false))
      else Writing(m.(passwordHash := hash))
    case ClearPassword(_, _, password) =>
      if PasswordOk(m, password) then Writing(m.(passwordHash := "")) else Leave(Return(false))
    case SetDataPolicy(_, _, policy, expiresAt) => Writing(m.(dataPolicy := policy, expiresAt := expiresAt))
    case _ => Leave(Return(true))
  }

  function MetaAt(s: State, k: Key): Option<Metadata> {
    if k in s.meta then Some(s.meta[k]) else None
  }

  function NewMeta(call: Call): Metadata
    requires call.Create?
  {
    call.meta.(id := call.id, size := |call.source|)
  }

  function Next(s: State, step: Step): State
    requires Enabled(s, step)
  {
    var t := step.t;
    match step
    case Begin(_, call) => s.(threads := s.threads[t := Thread(call, First, FirstPc(call))])
    case Run(_, now, ok) =>
      if LockStep(s, t).Some? then RunLock(s, t) else RunFile(s, t, now, ok)
  }

  function RunLock(s: State, t: Tid): State
    requires t in s.threads && LockStep(s, t).Some? && L.Enabled(s.lk, LockStep(s, t).value)
  {
    var th := s.threads[t];
    var lk := L.Next(s.lk, LockStep(s, t).value);
    match th.pc
    case Enter => Goto(s.(lk := lk), t, Blocked)
    case Blocked => Goto(s.(lk := lk), t, Inside)
    case Leave(after) => Goto(s.(lk := lk), t, Drop(after))
    case Drop(after) => s.(lk := lk, threads := s.threads[t := Resume(th, after)])
    case _ => s
  }

  // ---- File steps, seen from the one key they are about ----

  /** What a step does: where the thread goes, and what happens to content and sidecar of its key.
      `claims` allots the next creation number; `taints` marks a creation as not always "once". */
  datatype Effect = Effect(
    pc: Pc,
    content: Change<File>,
    sidecar: Change<Metadata>,
    event: Option<Event>,
    claims: bool,
    taints: Option<nat>)

  function Go(pc: Pc): Effect {
    Effect(pc, Keep, Keep, None, false, None)
  }

  function EffectOf(th: Thread, t: Tid, file: Option<File>, m: Option<Metadata>, nextGen: nat, now: int,
                    ok: bool): Effect {
    var k := Target(th.call);
    match th.pc
    case Reserve =>
      Go(if file.Some? then Finished(false) else if th.call.Create? && th.call.custom then ReserveMeta else Enter)
    case ReserveMeta => Go(if m.Some? then Finished(false) else Enter)
    case Inside =>
      if th.call.Create? && file.None? then
        Go(Fill(nextGen)).(content := Put(File(nextGen, [], false, t, None)), claims := true)
      else Go(Decide(th, m, now))
    case Purge(_) => Go(PurgeMeta).(content := Remove)
    case PurgeMeta => Go(Leave(Done(th.call, false))).(sidecar := Remove)
    case Opening(meta, at) =>
      if file.None? then Go(Leave(Return(false)))
      else if th.call.Open? then Go(Leave(Return(true))).(event := Some(Opened(k, file.value.gen)))
      else Go(Serving(meta, at, file.value.gen, file.value.bytes))
    case Serving(meta, _, gen, body) =>
      if !ok then Go(Leave(Return(false)))
      else if !IsOnce(meta) then Go(Leave(Return(true))).(event := Some(Viewed(k, gen, false, body)))
      else Go(Erase).(event := Some(Viewed(k, gen, true, body)),
                      content := if file.Some? then Put(file.value.(consumer := Some(t))) else Keep)
    case Erase => Go(EraseMeta).(content := Remove)
    case EraseMeta => Go(Leave(Done(th.call, true))).(sidecar := Remove)
    case Writing(meta) =>
      Go(Leave(Return(true))).(sidecar := Put(meta),
                               taints := if file.Some? && !IsOnce(meta) then Some(file.value.gen) else None)
    case Fill(gen) =>
      if !ok || !th.call.Create? || file.None? then Go(Abort(gen))
      else Go(Publish(gen)).(content := Put(file.value.(bytes := th.call.source)))
    case Publish(gen) =>
      if !ok || !th.call.Create? || file.None? then Go(Abort(gen))
      else
        var meta := NewMeta(th.call);
        Effect(Leave(Return(true)), Put(file.value.(published := true)), Put(meta), Some(Created(k, gen)), false,
               if IsOnce(meta) then None else Some(gen))
    case Abort(_) => Go(Leave(Return(false))).(content := Remove)
    case _ => Go(th.pc)
  }

  function FileAt(s: State, k: Key): Option<File> {
    if k in s.content then Some(s.content[k]) else None
  }

  /** A sidecar is written under the id inside the record, as `writeMetadata` does. */
  function Commit(s: State, t: Tid, e: Effect): State
    requires t in s.threads
  {
    var th := s.threads[t];
    var k := Target(th.call);
    State(s.lk,
          match e.content { case Keep => s.content case Remove => s.content - {k} case Put(f) => s.content[k := f] },
          match e.sidecar { case Keep => s.meta case Remove => s.meta - {k} case Put(m) => s.meta[m.id := m] },
          s.threads[t := th.(pc := e.pc)],
          if e.claims && th.call.Create? then s.births + [Birth(k, th.call.source)] else s.births,
          if e.event.Some? then s.log + [e.event.value] else s.log,
          if e.taints.Some? then s.loose + {e.taints.value} else s.loose)
  }

  function RunFile(s: State, t: Tid, now: int, ok: bool): State
    requires t in s.threads
  {
    var k := Target(s.threads[t].call);
    Commit(s, t, EffectOf(s.threads[t], t, FileAt(s, k), MetaAt(s, k), |s.births|, now, ok))
  }
}
