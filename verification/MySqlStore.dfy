/** The MySQL paste store as a transition system. A paste is one row that statements read, update
    or delete atomically; the per-id locks are those of `LockProtocol`. Three things differ from
    the local store: cleanup, delete-all and the label update take no lock; content is a second
    statement, which finds nothing when the row has gone; and the tables compare ids without
    regard to case while the locks do not. */
module MySqlStore {
  import opened Common
  import opened Pastes
  import opened PasteHistory
  import L = LockProtocol

  type Id = string
  type RowKey = string
  type Tid = L.Tid

  datatype Row = Row(gen: nat, meta: Metadata, body: seq<byte>)

  datatype Call =
    | Create(id: Id, source: seq<byte>, meta: Metadata)
    | Open(id: Id, password: Secret)
    | View(id: Id, password: Secret)
    | Delete(id: Id, token: Secret)
    | DeleteManaged(id: Id, token: Secret)
    | AdminDelete(id: Id)
    | ManageMetadata(id: Id, token: Secret)
    | SetLabel(id: Id, token: Secret, title: string)
    | SetPassword(id: Id, token: Secret, hash: string)
    | ClearPassword(id: Id, token: Secret, password: Secret)
    | SetDataPolicy(id: Id, token: Secret, policy: string, expiresAt: Option<int>)
    | AdminDeleteAll
    | CleanupExpired

  datatype After = Return(ok: bool) | Upgrade | Relabel

  datatype Pc =
    | Enter | Blocked | Inside
    | Opening(meta: Metadata, gen: nat)                     // row read and checked, content not yet queried
    | Serving(meta: Metadata, gen: nat, body: seq<byte>)    // content queried, the callback is running
    | Consume(gen: nat, body: seq<byte>)                    // about to delete the row of a one-time paste
    | DropRow(good: bool, at: int)                          // about to delete the row, asked to or as expired at `at`
    | Update                                                // about to update columns of the row
    | Leave(after: After) | Drop(after: After)
    | Unlocked                                              // about to run a statement without a lock
    | Finished(ok: bool)

  datatype Thread = Thread(call: Call, upgraded: bool, pc: Pc)

  datatype State = State(
    lk: L.State,
    rows: map<RowKey, Row>,
    threads: map<Tid, Thread>,
    births: seq<Birth>,
    log: seq<Event>,
    loose: set<nat>)

  datatype Step =
    | Begin(t: Tid, call: Call)
    | Run(t: Tid, now: int, ok: bool)

  predicate Lockless(call: Call) {
    call.AdminDeleteAll? || call.CleanupExpired?
  }

  function Target(call: Call): Id {
    if Lockless(call) then "" else call.id
  }

  predicate Accepted(call: Call) {
    match call
    case AdminDeleteAll => true
    case CleanupExpired => true
    case Create(_, _, _) => ValidID(call.id)
    case Open(_, _) => ValidID(call.id)
    case View(_, _) => ValidID(call.id)
    case AdminDelete(_) => ValidID(call.id)
    case _ => ValidID(call.id) && !call.token.blank
  }

  function FirstPc(call: Call): Pc {
    if !Accepted(call) then Finished(false) else if Lockless(call) then Unlocked else Enter
  }

  function ModeOf(th: Thread): L.Mode {
    if th.call.View? && !th.upgraded then L.Shared else L.Exclusive
  }

  function LockStep(s: State, t: Tid): Option<L.Step>
    requires t in s.threads
  {
    var th := s.threads[t];
    match th.pc
    case Enter => Some(L.TakeRef(t, Target(th.call), ModeOf(th)))
    case Blocked => Some(L.Acquire(t))
    case Leave(_) => Some(L.Unlock(t))
    case Drop(_) => Some(L.DropRef(t))
    case _ => None
  }

  predicate Enabled(s: State, step: Step) {
    var t := step.t;
    match step
    case Begin(_, _) => t in s.threads ==> s.threads[t].pc.Finished?
    case Run(_, _, _) =>
      && t in s.threads && !s.threads[t].pc.Finished?
      && (LockStep(s, t).Some? ==> L.Enabled(s.lk, LockStep(s, t).value))
  }

  function Resume(th: Thread, after: After): Thread {
    match after
    case Return(ok) => th.(pc := Finished(ok))
    case Upgrade => Thread(th.call, true, Enter)
    case Relabel => th.(pc := Unlocked)
  }

  // ---- Statements ----

  function Decide(th: Thread, row: Option<Row>, now: int): Pc {
    match th.call
    case AdminDelete(_) => DropRow(true, now)
    case Create(_, _, _) => Leave(Return(false))
    case Delete(_, token) =>
      if row.None? || !DeleteTokenOk(row.value.meta, token) then Leave(Return(false)) else DropRow(true, now)
    case AdminDeleteAll => th.pc
    case CleanupExpired => th.pc
    case _ =>
      if row.None? then Leave(Return(false))
      else if IsExpired(row.value.meta, now) then DropRow(false, now)
      else Checked(th, row.value, now)
  }

  function Checked(th: Thread, row: Row, now: int): Pc {
    match th.call
    case Open(_, password) => if PasswordOk(row.meta, password) then Opening(row.meta, row.gen)
      else Leave(Return(false))
    case View(_, password) =>
      if !PasswordOk(row.meta, password) then Leave(Return(false))
      else if IsOnce(row.meta) && !th.upgraded then Leave(Upgrade)
      else Opening(row.meta, row.gen)
    case DeleteManaged(_, token) => if ManageTokenOk(row.meta, token) then DropRow(true, now) else Leave(Return(false))
    case SetLabel(_, token, _) => Leave(if ManageTokenOk(row.meta, token) then Relabel else Return(false))
    case ManageMetadata(_, token) => Leave(Return(ManageTokenOk(row.meta, token)))
    case SetPassword(_, token, _) =>
      if ManageTokenOk(row.meta, token) && row.meta.passwordHash == "" then Update else Leave(Return(false))
    case ClearPassword(_, token, password) =>
      if ManageTokenOk(row.meta, token) && PasswordOk(row.meta, password) then Update else Leave(Return(false))
    case SetDataPolicy(_, token, _, _) => if ManageTokenOk(row.meta, token) then Update else Leave(Return(false))
    case _ => Leave(Return(false))
  }

  /** The columns an UPDATE of this call sets. */
  function Columns(call: Call, m: Metadata): Metadata {
    match call
    case SetLabel(_, _, title) => m.(title := title)
    case SetPassword(_, _, hash) => m.(passwordHash := hash)
    case ClearPassword(_, _, _) => m.(passwordHash := "")
    case SetDataPolicy(_, _, policy, expiresAt) => m.(dataPolicy := policy, expiresAt := UnixTime(NullUnix(expiresAt)))
    case _ => m
  }

  function RowAt(s: State, k: RowKey): Option<Row> {
    if k in s.rows then Some(s.rows[k]) else None
  }

  function Goto(s: State, t: Tid, pc: Pc): State
    requires t in s.threads
  {
    s.(threads := s.threads[t := s.threads[t].(pc := pc)])
  }

  function RunLock(s: State, t: Tid): State
    requires t in s.threads && LockStep(s, t).Some? && L.Enabled(s.lk, LockStep(s, t).value)
  {
    var th := s.threads[t];
    var s1 := s.(lk := L.Next(s.lk, LockStep(s, t).value));
    match th.pc
    case Enter => Goto(s1, t, Blocked)
    case Blocked => Goto(s1, t, Inside)
    case Leave(after) => Goto(s1, t, Drop(after))
    case Drop(after) => s1.(threads := s.threads[t := Resume(th, after)])
    case _ => s
  }

  /** What a statement does: where the thread goes, and what happens to the row of its key. */
  datatype Effect = Effect(pc: Pc, row: Change<Row>, event: Option<Event>, birth: Option<Birth>, taint: Option<nat>)

  function Go(pc: Pc): Effect {
    Effect(pc, Keep, None, None, None)
  }

  function UpdateOf(call: Call, row: Option<Row>, pc: Pc): Effect {
    if row.None? then Go(pc)
    else
      var m := Columns(call, row.value.meta);
      Effect(pc, Put(row.value.(meta := m)), None, None, if IsOnce(m) then None else Some(row.value.gen))
  }

  function EffectOf(th: Thread, row: Option<Row>, nextGen: nat, now: int, ok: bool): Effect {
    match th.pc
    case Inside =>
      if th.call.Create? && row.None? && ok then
        var m := ReadBack(th.call.meta.(id := th.call.id, size := |th.call.source|));
        Effect(Leave(Return(true)), Put(Row(nextGen, m, th.call.source)), None,
               Some(Birth(th.call.id, th.call.source)), if IsOnce(m) then None else Some(nextGen))
      else Go(Decide(th, row, now))
    case Opening(m, g) =>
      if th.call.Open? then Go(Leave(Return(true))).(event := Some(Opened(Target(th.call), g)))
      else Go(Serving(m, g, if row.Some? then row.value.body else []))
    case Serving(m, g, body) =>
      if !ok then Go(Leave(Return(false)))
      else if IsOnce(m) then Go(Consume(g, body))
      else Go(Leave(Return(true))).(event := Some(Viewed(Target(th.call), g, false, body)))
    case Consume(g, body) =>
      if row.Some? then Go(Leave(Return(true))).(row := Remove, event := Some(Viewed(Target(th.call), g, true, body)))
      else Go(Leave(Return(false)))
    case DropRow(good, _) => Go(Leave(Return(good && row.Some?))).(row := Remove)
    case Update => UpdateOf(th.call, row, Leave(Return(true)))
    case Unlocked => UpdateOf(th.call, row, Finished(true))
    case _ => Go(th.pc)
  }

  function Commit(s: State, t: Tid, e: Effect): State
    requires t in s.threads
  {
    var k := KeyOf(Target(s.threads[t].call));
    State(s.lk,
          match e.row { case Keep => s.rows case Remove => s.rows - {k} case Put(row) => s.rows[k := row] },
          s.threads[t := s.threads[t].(pc := e.pc)],
          if e.birth.Some? then s.births + [e.birth.value] else s.births,
          if e.event.Some? then s.log + [e.event.value] else s.log,
          if e.taint.Some? then s.loose + {e.taint.value} else s.loose)
  }

  /** Delete-all and clean-up: one statement over the whole table, no lock. */
  function Sweep(s: State, t: Tid, now: int): State
    requires t in s.threads
  {
    var all := s.threads[t].call.AdminDeleteAll?;
    Goto(s.(rows := map j | j in s.rows && !all && !SqlExpired(NullUnix(s.rows[j].meta.expiresAt), now) :: s.rows[j]),
         t, Finished(true))
  }

  function RunSql(s: State, t: Tid, now: int, ok: bool): State
    requires t in s.threads
  {
    var th := s.threads[t];
    if Lockless(th.call) then Sweep(s, t, now)
    else Commit(s, t, EffectOf(th, RowAt(s, KeyOf(Target(th.call))), |s.births|, now, ok))
  }

  function Next(s: State, step: Step): State
    requires Enabled(s, step)
  {
    var t := step.t;
    match step
    case Begin(_, call) => s.(threads := s.threads[t := Thread(call, false, FirstPc(call))])
    case Run(_, now, ok) => if LockStep(s, t).Some? then RunLock(s, t) else RunSql(s, t, now, ok)
  }

  predicate Legal(s: State, steps: seq<Step>)
    decreases |steps|
  {
    steps == [] || (Enabled(s, steps[0]) && Legal(Next(s, steps[0]), steps[1..]))
  }

  function RunAll(s: State, steps: seq<Step>): State
    requires Legal(s, steps)
    decreases |steps|
  {
    if steps == [] then s else RunAll(Next(s, steps[0]), steps[1..])
  }
}
