/** One-time pastes in MySQL: what every step keeps when the ids in use differ by more than case. */
module MySqlOnce {
  import opened Common
  import opened Pastes
  import opened PasteHistory
  import opened MySqlStore
  import L = LockProtocol

  // ---- The invariant ----

  predicate InSection(pc: Pc) {
    !pc.Enter? && !pc.Blocked? && !pc.Drop? && !pc.Finished? && !pc.Unlocked?
  }

  predicate Shape(s: State, t: Tid)
    requires t in s.threads
  {
    var th := s.threads[t];
    var p := L.PhaseOf(s.lk, t);
    if InSection(th.pc) then p.Holding? && p.key == Target(th.call) && p.mode == ModeOf(th) && !Lockless(th.call)
    else if th.pc.Blocked? then p.Waiting? && p.key == Target(th.call) && p.mode == ModeOf(th) && !Lockless(th.call)
    else if th.pc.Drop? then p.Released? && p.key == Target(th.call) && !Lockless(th.call)
    else p.Idle? && (th.pc.Enter? ==> !Lockless(th.call))
  }

  function HistoryOf(s: State): History {
    History(s.births, s.log, s.loose)
  }

  /** No creation for row key `k` came after number `g`. */
  predicate Newest(k: RowKey, g: nat, births: seq<Birth>) {
    forall i :: g < i < |births| ==> KeyOf(births[i].id) != k
  }

  /** Creation `g` was for this row key, is the latest, and no one-time view has consumed it. */
  ghost predicate Fresh(k: RowKey, g: nat, h: History) {
    g < |h.births| && KeyOf(h.births[g].id) == k && !Consumed(h.log, g) && Newest(k, g, h.births)
  }

  ghost predicate RowOk(k: RowKey, row: Row, h: History) {
    Fresh(k, row.gen, h) && row.body == h.births[row.gen].source && (!IsOnce(row.meta) ==> row.gen in h.loose)
  }

  /** What entitles a lock holder to delete a row: it has expired, or the call has the right to. */
  predicate MayDrop(call: Call, good: bool, at: int, m: Metadata) {
    if !good then IsExpired(m, at)
    else match call
      case Delete(_, token) => DeleteTokenOk(m, token)
      case DeleteManaged(_, token) => ManageTokenOk(m, token)
      case _ => call.AdminDelete?
  }

  predicate MayConsume(call: Call, m: Metadata) {
    call.View? && IsOnce(m) && PasswordOk(m, call.password)
  }

  /** What entitles a lock holder to update a row. */
  predicate MayUpdate(call: Call, m: Metadata) {
    match call
    case SetPassword(_, token, _) => ManageTokenOk(m, token) && m.passwordHash == ""
    case ClearPassword(_, token, password) => ManageTokenOk(m, token) && PasswordOk(m, password)
    case SetDataPolicy(_, token, _, _) => ManageTokenOk(m, token)
    case _ => false
  }

  /** The one change a call makes to a record: the fields it is about, and no other. */
  predicate Edits(call: Call, before: Metadata, after: Metadata) {
    match call
    case SetLabel(_, _, title) => after == before.(title := title)
    case SetPassword(_, _, hash) => after == before.(passwordHash := hash)
    case ClearPassword(_, _, _) => after == before.(passwordHash := "")
    case SetDataPolicy(_, _, policy, expiresAt) =>
      && after == before.(dataPolicy := policy, expiresAt := after.expiresAt)
      && IsStoredExpiry(after.expiresAt, expiresAt)
    case _ => false
  }

  /** What a call that is about to report success has achieved, as far as no lockless statement has
      undone it since: the row is gone, or if it is there it holds what was asked for. */
  predicate Reported(call: Call, row: Option<Row>) {
    match call
    case Delete(_, _) => row.None?
    case DeleteManaged(_, _) => row.None?
    case AdminDelete(_) => row.None?
    case Create(id, source, meta) =>
      row.Some? ==>
        && row.value.body == source
        && IsStored(row.value.meta.(title := meta.title), meta.(id := id, size := |source|))
    case SetPassword(_, _, hash) => row.Some? ==> row.value.meta.passwordHash == hash
    case ClearPassword(_, _, _) => row.Some? ==> row.value.meta.passwordHash == ""
    case SetDataPolicy(_, _, policy, expiresAt) =>
      row.Some? ==> row.value.meta.dataPolicy == policy && IsStoredExpiry(row.value.meta.expiresAt, expiresAt)
    case _ => true
  }

  /** What a lock holder knows. Lockless statements may remove its row at any time, so everything
      about the row is conditional on its being there. */
  ghost predicate Knows(th: Thread, row: Option<Row>, h: History) {
    var k := KeyOf(Target(th.call));
    var exclusive := ModeOf(th) == L.Exclusive;
    match th.pc
    case Opening(m, g) =>
      && (th.call.View? || th.call.Open?)
      && Fresh(k, g, h) && (row.Some? ==> row.value.gen == g)
      && (row.Some? ==> PasswordOk(row.value.meta, th.call.password) && IsOnce(row.value.meta) == IsOnce(m))
      && (!IsOnce(m) ==> g in h.loose)
      && (th.call.View? && IsOnce(m) ==> exclusive)
    case Serving(m, g, body) =>
      && th.call.View?
      && Fresh(k, g, h) && (row.Some? ==> row.value.gen == g && body == row.value.body)
      && (body == h.births[g].source || body == [])
      && (row.Some? ==> PasswordOk(row.value.meta, th.call.password) && IsOnce(row.value.meta) == IsOnce(m))
      && (if IsOnce(m) then exclusive else g in h.loose)
    case Consume(g, body) =>
      && exclusive && Fresh(k, g, h)
      && (row.Some? ==> row.value.gen == g && body == row.value.body && MayConsume(th.call, row.value.meta))
    case DropRow(good, at) => row.Some? ==> MayDrop(th.call, good, at, row.value.meta)
    case Update => exclusive && (row.Some? ==> MayUpdate(th.call, row.value.meta))
    case Leave(after) => (after.Relabel? ==> th.call.SetLabel?) && (after == Return(true) ==> Reported(th.call, row))
    case Drop(after) => after.Relabel? ==> th.call.SetLabel?
    case Unlocked => th.call.SetLabel? || Lockless(th.call)
    case _ => true
  }

  ghost predicate ThreadOk(s: State, t: Tid)
    requires t in s.threads
  {
    var th := s.threads[t];
    Shape(s, t) && Knows(th, RowAt(s, KeyOf(Target(th.call))), HistoryOf(s))
  }

  predicate EventOk(h: History, e: Event) {
    && e.gen < |h.births| && KeyOf(h.births[e.gen].id) == KeyOf(e.id)
    && (e.Viewed? ==> e.body == h.births[e.gen].source || e.body == [])
    && (e.Viewed? && e.gen !in h.loose ==> e.once)
    && (e.Viewed? && e.once ==> e.body == h.births[e.gen].source)
  }

  ghost predicate LogOk(s: State) {
    && (forall i :: 0 <= i < |s.log| ==> EventOk(HistoryOf(s), s.log[i]))
    && Final(s.log)
    && InOrder(s.log)
  }

  /** Of one row key, later events are never about earlier creations. */
  predicate InOrder(log: seq<Event>) {
    forall i, j :: 0 <= i < j < |log| && KeyOf(log[i].id) == KeyOf(log[j].id) ==> log[i].gen <= log[j].gen
  }

  /** No two ids in `ids` are the same row to MySQL. */
  ghost predicate CaseDistinct(ids: iset<Id>) {
    forall a, b :: a in ids && b in ids && KeyOf(a) == KeyOf(b) ==> a == b
  }

  ghost predicate UsesOnly(s: State, ids: iset<Id>) {
    forall t :: t in s.threads && !Lockless(s.threads[t].call) ==> Target(s.threads[t].call) in ids
  }

  ghost predicate Inv(s: State, ids: iset<Id>) {
    && L.Inv(s.lk) && UsesOnly(s, ids)
    && (forall t :: t in s.threads ==> ThreadOk(s, t))
    && (forall t :: t !in s.threads ==> L.PhaseOf(s.lk, t).Idle?)
    && (forall k :: k in s.rows ==> RowOk(k, s.rows[k], HistoryOf(s)))
    && LogOk(s)
  }

  /** A database at rest. */
  ghost predicate AtRest(s: State) {
    && s.lk == L.INIT && s.threads == map[] && s.log == []
    && (forall k :: k in s.rows ==> RowOk(k, s.rows[k], HistoryOf(s)))
  }

  lemma AtRestInv(s: State, ids: iset<Id>)
    requires AtRest(s)
    ensures Inv(s, ids)
  {
    L.InitInv();
  }

  // ---- Exclusion by row, from exclusion by id ----

  lemma BothInSection(s: State, ids: iset<Id>, t: Tid, u: Tid)
    requires CaseDistinct(ids) && Inv(s, ids) && t != u && t in s.threads && u in s.threads
    requires InSection(s.threads[t].pc) && InSection(s.threads[u].pc)
    requires KeyOf(Target(s.threads[t].call)) == KeyOf(Target(s.threads[u].call))
    ensures ModeOf(s.threads[t]) == L.Shared && ModeOf(s.threads[u]) == L.Shared
  {
    assert ThreadOk(s, t) && ThreadOk(s, u);
    assert Target(s.threads[t].call) == Target(s.threads[u].call);
    L.WriterExcludes(s.lk, t, u);
    L.WriterExcludes(s.lk, u, t);
  }

  // ---- Frames ----

  /** What happens to a row without its exclusive lock: it goes, or it gets a new label. */
  predicate Fades(before: Option<Row>, after: Option<Row>) {
    after.Some? ==>
      && before.Some? && after.value.gen == before.value.gen && after.value.body == before.value.body
      && after.value.meta == before.value.meta.(title := after.value.meta.title)
  }

  ghost predicate Extends(h: History, h': History) {
    h.births <= h'.births && h.loose <= h'.loose && Grows(h.log, h'.log)
  }

  lemma FreshStays(k: RowKey, g: nat, h: History, h': History)
    requires Extends(h, h') && Fresh(k, g, h)
    requires LogsOnce(h.log, h'.log) ==> h'.log[|h.log|].gen != g
    requires forall i :: |h.births| <= i < |h'.births| ==> KeyOf(h'.births[i].id) != k
    ensures Fresh(k, g, h')
  {
    if Consumed(h'.log, g) {
      ConsumedGrows(h.log, h'.log, g);
    }
  }

  /** The holder of another row, or a reader of the same one, still knows what it knew. */
  lemma KnowsStays(th: Thread, row: Option<Row>, row': Option<Row>, h: History, h': History)
    requires Knows(th, row, h) && Extends(h, h') && Fades(row, row')
    requires forall i :: |h.births| <= i < |h'.births| ==> KeyOf(h'.births[i].id) != KeyOf(Target(th.call))
    requires LogsOnce(h.log, h'.log) && (th.pc.Opening? || th.pc.Serving? || th.pc.Consume?) ==>
      h'.log[|h.log|].gen != th.pc.gen
    ensures Knows(th, row', h')
  {
    if th.pc.Opening? || th.pc.Serving? || th.pc.Consume? {
      FreshStays(KeyOf(Target(th.call)), th.pc.gen, h, h');
    }
  }

  /** `s'` differs from `s` in thread `t`, in the row of key `k`, and elsewhere only by rows that
      faded; no row appears except at `k`. */
  ghost predicate Local(s: State, s': State, t: Tid, k: RowKey) {
    && t in s'.threads
    && (forall u :: u != t ==> (u in s.threads <==> u in s'.threads) && L.PhaseOf(s'.lk, u) == L.PhaseOf(s.lk, u))
    && (forall u :: u != t && u in s.threads ==> s'.threads[u] == s.threads[u])
    && (forall j :: j != k ==> Fades(RowAt(s, j), RowAt(s', j)))
    && Extends(HistoryOf(s), HistoryOf(s'))
    && (forall i :: |s.births| <= i < |s'.births| ==> KeyOf(s'.births[i].id) == k)
    && (LogsOnce(s.log, s'.log) ==>
          s'.log[|s.log|].gen < |s.births| && KeyOf(s.births[s'.log[|s.log|].gen].id) == k && k !in s'.rows)
  }

  /** What a step may do to row `k` without its exclusive lock. */
  predicate OnlyFades(s: State, s': State, k: RowKey) {
    Fades(RowAt(s, k), RowAt(s', k)) && !LogsOnce(s.log, s'.log) && s'.births == s.births
  }

  /** Thread `t` may do as it likes to row `k`: it holds the lock of that row exclusively. */
  predicate Owner(s: State, t: Tid, k: RowKey) {
    && t in s.threads && InSection(s.threads[t].pc) && ModeOf(s.threads[t]) == L.Exclusive
    && KeyOf(Target(s.threads[t].call)) == k
  }

  lemma OtherThread(s: State, s': State, ids: iset<Id>, t: Tid, k: RowKey, u: Tid)
    requires CaseDistinct(ids) && Inv(s, ids) && Local(s, s', t, k) && u != t && u in s.threads
    requires Owner(s, t, k) || OnlyFades(s, s', k)
    ensures ThreadOk(s', u)
  {
    assert ThreadOk(s, u);
    var th := s.threads[u];
    var j := KeyOf(Target(th.call));
    if InSection(th.pc) {
      if j == k && Owner(s, t, k) {
        BothInSection(s, ids, t, u);
      } else {
        KnowsStays(th, RowAt(s, j), RowAt(s', j), HistoryOf(s), HistoryOf(s'));
      }
    }
  }

  /** The event a step logs is about the latest creation of its row key, not yet consumed. */
  ghost predicate LogFits(s: State, s': State)
    requires |s'.log| > |s.log|
  {
    var e := s'.log[|s.log|];
    EventOk(HistoryOf(s'), e) && Fresh(KeyOf(e.id), e.gen, HistoryOf(s))
  }

  lemma OrderGrows(s: State, log': seq<Event>)
    requires LogOk(s) && Grows(s.log, log')
    requires |log'| > |s.log| ==> Newest(KeyOf(log'[|s.log|].id), log'[|s.log|].gen, s.births)
    ensures InOrder(log')
  {
    forall i, j | 0 <= i < j < |log'| && KeyOf(log'[i].id) == KeyOf(log'[j].id) ensures log'[i].gen <= log'[j].gen {
      assert log'[..|s.log|][i] == log'[i];
      assert EventOk(HistoryOf(s), s.log[i]);
      if j < |s.log| {
        assert log'[..|s.log|][j] == log'[j];
      }
    }
  }

  lemma LogLift(s: State, s': State, ids: iset<Id>)
    requires Inv(s, ids) && Extends(HistoryOf(s), HistoryOf(s'))
    requires |s'.log| > |s.log| ==> LogFits(s, s')
    ensures LogOk(s')
  {
    forall i | 0 <= i < |s'.log| ensures EventOk(HistoryOf(s'), s'.log[i]) {
      if i < |s.log| {
        assert s'.log[..|s.log|][i] == s'.log[i];
        assert EventOk(HistoryOf(s), s.log[i]);
      }
    }
    FinalGrows(s.log, s'.log);
    OrderGrows(s, s'.log);
  }

  /** The rows are sound after the step: row `k` by the step, the others because they only faded. */
  ghost predicate RowsOk(s': State) {
    forall j :: j in s'.rows ==> RowOk(j, s'.rows[j], HistoryOf(s'))
  }

  lemma Lift(s: State, s': State, ids: iset<Id>, t: Tid, k: RowKey)
    requires CaseDistinct(ids) && Inv(s, ids) && Local(s, s', t, k) && L.Inv(s'.lk) && UsesOnly(s', ids)
    requires Owner(s, t, k) || OnlyFades(s, s', k)
    requires ThreadOk(s', t) && RowsOk(s')
    requires |s'.log| > |s.log| ==> LogFits(s, s')
    ensures Inv(s', ids)
  {
    forall u | u in s'.threads && u != t ensures ThreadOk(s', u) {
      OtherThread(s, s', ids, t, k, u);
    }
    LogLift(s, s', ids);
  }

  // ---- Steps that write no row, and sweeps ----

  /** Threads and locks change, rows only vanish, history stays. */
  ghost predicate Quiet(s: State, s': State, t: Tid) {
    && t in s'.threads && HistoryOf(s') == HistoryOf(s)
    && s'.threads == s.threads[t := s'.threads[t]]
    && (forall u :: u != t ==> L.PhaseOf(s'.lk, u) == L.PhaseOf(s.lk, u))
    && (forall j :: j in s'.rows ==> j in s.rows && s'.rows[j] == s.rows[j])
  }

  lemma QuietLocal(s: State, s': State, t: Tid)
    requires Quiet(s, s', t)
    ensures Local(s, s', t, "") && OnlyFades(s, s', "")
  {
  }

  lemma QuietInv(s: State, s': State, ids: iset<Id>, t: Tid)
    requires CaseDistinct(ids) && Inv(s, ids) && Quiet(s, s', t) && L.Inv(s'.lk) && UsesOnly(s', ids) && ThreadOk(s', t)
    ensures Inv(s', ids)
  {
    forall j | j in s'.rows ensures RowOk(j, s'.rows[j], HistoryOf(s')) {
      assert RowOk(j, s.rows[j], HistoryOf(s));
    }
    QuietLocal(s, s', t);
    Lift(s, s', ids, t, "");
  }

  lemma BeginQuiet(s: State, ids: iset<Id>, t: Tid, call: Call)
    requires Inv(s, ids) && Enabled(s, Begin(t, call)) && (Lockless(call) || call.id in ids)
    ensures var s' := Next(s, Begin(t, call)); Quiet(s, s', t) && UsesOnly(s', ids) && ThreadOk(s', t) && L.Inv(s'.lk)
  {
    if t in s.threads { assert ThreadOk(s, t); }
  }

  lemma BeginInv(s: State, ids: iset<Id>, t: Tid, call: Call)
    requires CaseDistinct(ids) && Inv(s, ids) && Enabled(s, Begin(t, call)) && (Lockless(call) || call.id in ids)
    ensures Inv(Next(s, Begin(t, call)), ids)
  {
    BeginQuiet(s, ids, t, call);
    QuietInv(s, Next(s, Begin(t, call)), ids, t);
  }

  lemma LockShape(s: State, t: Tid)
    requires t in s.threads && Shape(s, t) && LockStep(s, t).Some? && L.Enabled(s.lk, LockStep(s, t).value)
    ensures Shape(RunLock(s, t), t)
  {
    L.PhaseAfter(s.lk, LockStep(s, t).value);
  }

  lemma LockQuiet(s: State, t: Tid)
    requires t in s.threads && LockStep(s, t).Some? && L.Enabled(s.lk, LockStep(s, t).value)
    ensures Quiet(s, RunLock(s, t), t) && RunLock(s, t).lk == L.Next(s.lk, LockStep(s, t).value)
  {
    L.PhaseAfter(s.lk, LockStep(s, t).value);
  }

  lemma LockKeepsCall(s: State, ids: iset<Id>, t: Tid)
    requires UsesOnly(s, ids) && t in s.threads && LockStep(s, t).Some? && L.Enabled(s.lk, LockStep(s, t).value)
    ensures UsesOnly(RunLock(s, t), ids)
    ensures var pc := RunLock(s, t).threads[t].pc; !pc.Opening? && !pc.Serving? && !pc.Consume? && !pc.Update?
  {
  }

  lemma LockInv(s: State, ids: iset<Id>, t: Tid)
    requires CaseDistinct(ids) && Inv(s, ids) && t in s.threads && LockStep(s, t).Some? &&
      L.Enabled(s.lk, LockStep(s, t).value)
    ensures Inv(RunLock(s, t), ids)
  {
    L.StepInv(s.lk, LockStep(s, t).value);
    assert ThreadOk(s, t);
    LockShape(s, t);
    LockQuiet(s, t);
    LockKeepsCall(s, ids, t);
    QuietInv(s, RunLock(s, t), ids, t);
  }

  lemma SweepInv(s: State, ids: iset<Id>, t: Tid, now: int)
    requires CaseDistinct(ids) && Inv(s, ids) && t in s.threads && Lockless(s.threads[t].call)
    ensures Inv(Sweep(s, t, now), ids)
  {
    assert ThreadOk(s, t);
    QuietInv(s, Sweep(s, t, now), ids, t);
  }

  // ---- Statements about one row, on the values of that row ----

  function HistoryAfter(h: History, e: Effect): History {
    History(if e.birth.Some? then h.births + [e.birth.value] else h.births,
            if e.event.Some? then h.log + [e.event.value] else h.log,
            if e.taint.Some? then h.loose + {e.taint.value} else h.loose)
  }

  predicate OnceEvent(e: Effect) {
    e.event.Some? && OnceView(e.event.value)
  }

  ghost predicate Keeps(th: Thread, row: Option<Row>, h: History, e: Effect) {
    var k := KeyOf(Target(th.call));
    var h' := HistoryAfter(h, e);
    var row' := Applied(row, e.row);
    && (if th.pc.Unlocked? then e.pc.Finished? else InSection(e.pc))
    && ((ModeOf(th) == L.Exclusive && InSection(th.pc)) || (Fades(row, row') && !OnceEvent(e) && e.birth.None?))
    && Knows(th.(pc := e.pc), row', h')
    && (row'.Some? ==> RowOk(k, row'.value, h'))
    && (OnceEvent(e) ==> row'.None?)
    && (e.birth.Some? ==> KeyOf(e.birth.value.id) == k)
    && (e.event.Some? ==> EventOk(h', e.event.value) && Fresh(k, e.event.value.gen, h))
  }

  lemma InsideKeeps(th: Thread, row: Option<Row>, h: History, now: int, ok: bool)
    requires !Lockless(th.call) && th.pc.Inside? && (row.Some? ==> RowOk(KeyOf(Target(th.call)), row.value, h))
    requires !Consumed(h.log, |h.births|)
    ensures Keeps(th, row, h, EffectOf(th, row, |h.births|, now, ok))
  {
  }

  lemma ReadingKeeps(th: Thread, row: Option<Row>, h: History, now: int, ok: bool)
    requires !Lockless(th.call) && (th.pc.Opening? || th.pc.Serving?)
    requires Knows(th, row, h) && (row.Some? ==> RowOk(KeyOf(Target(th.call)), row.value, h))
    ensures Keeps(th, row, h, EffectOf(th, row, |h.births|, now, ok))
  {
    var g := th.pc.gen;
    if th.pc.Opening? {
      ConsumedAppend(h.log, Opened(Target(th.call), g), g);
    } else {
      ConsumedAppend(h.log, Viewed(Target(th.call), g, false, th.pc.body), g);
    }
  }

  lemma EffectKeeps(th: Thread, row: Option<Row>, h: History, now: int, ok: bool)
    requires !Lockless(th.call) && (th.pc.Unlocked? || (InSection(th.pc) && !th.pc.Leave?))
    requires Knows(th, row, h) && (row.Some? ==> RowOk(KeyOf(Target(th.call)), row.value, h))
    requires !Consumed(h.log, |h.births|)
    ensures Keeps(th, row, h, EffectOf(th, row, |h.births|, now, ok))
  {
    if th.pc.Inside? { InsideKeeps(th, row, h, now, ok); }
    if th.pc.Opening? || th.pc.Serving? { ReadingKeeps(th, row, h, now, ok); }
  }

  lemma NewNumberIsFresh(s: State, ids: iset<Id>)
    requires Inv(s, ids)
    ensures !Consumed(s.log, |s.births|)
  {
    forall i | 0 <= i < |s.log| ensures s.log[i].gen != |s.births| {
      assert EventOk(HistoryOf(s), s.log[i]);
    }
  }

  lemma CommitRow(s: State, t: Tid, e: Effect)
    requires t in s.threads
    ensures var k := KeyOf(Target(s.threads[t].call)); var s' := Commit(s, t, e);
      && RowAt(s', k) == Applied(RowAt(s, k), e.row)
      && HistoryOf(s') == HistoryAfter(HistoryOf(s), e)
      && (LogsOnce(s.log, s'.log) <==> OnceEvent(e))
      && (e.event.Some? ==> s'.log[|s.log|] == e.event.value)
      && (forall j :: j != k ==> RowAt(s', j) == RowAt(s, j))
      && Extends(HistoryOf(s), HistoryOf(s'))
  {
  }

  lemma CommitLocal(s: State, t: Tid, e: Effect)
    requires t in s.threads
    requires var th := s.threads[t]; Keeps(th, RowAt(s, KeyOf(Target(th.call))), HistoryOf(s), e)
    ensures var k := KeyOf(Target(s.threads[t].call)); var s' := Commit(s, t, e);
      && Local(s, s', t, k)
      && RowAt(s', k) == Applied(RowAt(s, k), e.row)
      && HistoryOf(s') == HistoryAfter(HistoryOf(s), e)
      && (LogsOnce(s.log, s'.log) <==> OnceEvent(e))
      && (e.event.Some? ==> s'.log[|s.log|] == e.event.value)
      && (forall j :: j != k ==> RowAt(s', j) == RowAt(s, j))
  {
    CommitRow(s, t, e);
  }

  lemma CommitRows(s: State, ids: iset<Id>, t: Tid, e: Effect)
    requires Inv(s, ids) && t in s.threads
    requires var th := s.threads[t]; Keeps(th, RowAt(s, KeyOf(Target(th.call))), HistoryOf(s), e)
    ensures RowsOk(Commit(s, t, e))
  {
    var s' := Commit(s, t, e);
    var k := KeyOf(Target(s.threads[t].call));
    CommitLocal(s, t, e);
    forall j | j in s'.rows ensures RowOk(j, s'.rows[j], HistoryOf(s')) {
      if j != k {
        assert RowAt(s', j) == RowAt(s, j);
        FreshStays(j, s.rows[j].gen, HistoryOf(s), HistoryOf(s'));
      }
    }
  }

  lemma CommitThread(s: State, ids: iset<Id>, t: Tid, e: Effect)
    requires UsesOnly(s, ids) && t in s.threads && Shape(s, t)
    requires s.threads[t].pc.Unlocked? || (InSection(s.threads[t].pc) && !s.threads[t].pc.Leave?)
    requires var th := s.threads[t]; Keeps(th, RowAt(s, KeyOf(Target(th.call))), HistoryOf(s), e)
    ensures ThreadOk(Commit(s, t, e), t) && UsesOnly(Commit(s, t, e), ids)
  {
    CommitLocal(s, t, e);
  }

  lemma StatementInv(s: State, ids: iset<Id>, t: Tid, now: int, ok: bool)
    requires CaseDistinct(ids) && Inv(s, ids) && t in s.threads && !Lockless(s.threads[t].call)
    requires s.threads[t].pc.Unlocked? || (InSection(s.threads[t].pc) && !s.threads[t].pc.Leave?)
    ensures Inv(RunSql(s, t, now, ok), ids)
  {
    var th := s.threads[t];
    var k := KeyOf(Target(th.call));
    var e := EffectOf(th, RowAt(s, k), |s.births|, now, ok);
    assert ThreadOk(s, t);
    NewNumberIsFresh(s, ids);
    EffectKeeps(th, RowAt(s, k), HistoryOf(s), now, ok);
    CommitLocal(s, t, e);
    CommitRows(s, ids, t, e);
    CommitThread(s, ids, t, e);
    Lift(s, Commit(s, t, e), ids, t, k);
  }

  lemma StepInv(s: State, ids: iset<Id>, step: Step)
    requires CaseDistinct(ids) && Inv(s, ids) && Enabled(s, step)
    requires step.Begin? ==> Lockless(step.call) || step.call.id in ids
    ensures Inv(Next(s, step), ids)
  {
    match step
    case Begin(t, call) => BeginInv(s, ids, t, call);
    case Run(t, now, ok) =>
      if LockStep(s, t).Some? { LockInv(s, ids, t); }
      else if Lockless(s.threads[t].call) { SweepInv(s, ids, t, now); }
      else { StatementInv(s, ids, t, now, ok); }
  }

  ghost predicate AsksOnly(steps: seq<Step>, ids: iset<Id>) {
    forall i :: 0 <= i < |steps| && steps[i].Begin? && !Lockless(steps[i].call) ==> steps[i].call.id in ids
  }

  lemma {:induction false} RunInv(s: State, ids: iset<Id>, steps: seq<Step>)
    requires CaseDistinct(ids) && AsksOnly(steps, ids) && Inv(s, ids) && Legal(s, steps)
    ensures Inv(RunAll(s, steps), ids)
    decreases |steps|
  {
    if steps != [] {
      StepInv(s, ids, steps[0]);
      RunInv(Next(s, steps[0]), ids, steps[1..]);
    }
  }

  // ---- What holds over every interleaving ----

  /** With ids that differ by more than case: after a one-time View has succeeded, no View or Open
      of that creation succeeds, whoever succeeds later on the same row key does so on a newer one, and
      the successful View served the complete body. */
  lemma OnceIsFinal(s: State, ids: iset<Id>, steps: seq<Step>, i: nat)
    requires AtRest(s) && CaseDistinct(ids) && AsksOnly(steps, ids) && Legal(s, steps)
    requires i < |RunAll(s, steps).log| && RunAll(s, steps).log[i].Viewed? && RunAll(s, steps).log[i].once
    ensures var r := RunAll(s, steps);
      && (forall j :: i < j < |r.log| ==>
            r.log[j].gen != r.log[i].gen && (KeyOf(r.log[j].id) == KeyOf(r.log[i].id) ==> r.log[j].gen > r.log[i].gen))
      && r.log[i].gen < |r.births| && r.log[i].body == r.births[r.log[i].gen].source
  {
    AtRestInv(s, ids);
    RunInv(s, ids, steps);
    var r := RunAll(s, steps);
    assert EventOk(HistoryOf(r), r.log[i]);
  }

  /** Any successful View, one-time or not, served the complete body of its creation or nothing. */
  lemma ViewServesAllOrNothing(s: State, ids: iset<Id>, steps: seq<Step>, i: nat)
    requires AtRest(s) && CaseDistinct(ids) && AsksOnly(steps, ids) && Legal(s, steps)
    requires i < |RunAll(s, steps).log| && RunAll(s, steps).log[i].Viewed?
    ensures var r := RunAll(s, steps); var e := r.log[i];
      e.gen < |r.births| && (e.body == r.births[e.gen].source || (e.body == [] && !e.once))
  {
    AtRestInv(s, ids);
    RunInv(s, ids, steps);
    assert EventOk(HistoryOf(RunAll(s, steps)), RunAll(s, steps).log[i]);
  }

  /** It is nothing exactly when the row, read and checked before, has gone by the content query. */
  lemma ContentQueryIsExact(s: State, ids: iset<Id>, steps: seq<Step>, t: Tid, now: int, ok: bool)
    requires AtRest(s) && CaseDistinct(ids) && AsksOnly(steps, ids) && Legal(s, steps)
    requires var r := RunAll(s, steps);
      Enabled(r, Run(t, now, ok)) && r.threads[t].pc.Opening? && r.threads[t].call.View?
    ensures var r := RunAll(s, steps); var th' := Next(r, Run(t, now, ok)).threads[t];
      && th'.pc.Serving? && th'.pc.gen < |r.births|
      && th'.pc.body == if KeyOf(th'.call.id) in r.rows then r.births[th'.pc.gen].source else []
  {
    AtRestInv(s, ids);
    RunInv(s, ids, steps);
    var r := RunAll(s, steps);
    assert ThreadOk(r, t);
    if KeyOf(r.threads[t].call.id) in r.rows {
      assert RowOk(KeyOf(r.threads[t].call.id), r.rows[KeyOf(r.threads[t].call.id)], HistoryOf(r));
    }
  }

  /** So a creation whose row has only ever said "once" is viewed successfully at most once. */
  lemma OnceAtMostOnce(s: State, ids: iset<Id>, steps: seq<Step>, i: nat, j: nat)
    requires AtRest(s) && CaseDistinct(ids) && AsksOnly(steps, ids) && Legal(s, steps)
    requires var log := RunAll(s, steps).log;
      i < |log| && j < |log| && log[i].Viewed? && log[j].Viewed? && log[i].gen == log[j].gen
    requires RunAll(s, steps).log[i].gen !in RunAll(s, steps).loose
    ensures i == j
  {
    AtRestInv(s, ids);
    RunInv(s, ids, steps);
    var r := RunAll(s, steps);
    assert EventOk(HistoryOf(r), r.log[i]) && EventOk(HistoryOf(r), r.log[j]);
    if i < j { OnceIsFinal(s, ids, steps, i); }
    if j < i { OnceIsFinal(s, ids, steps, j); }
  }

  /** And a row has said something else only if a statement has made it do so. */
  lemma LooseByPolicy(s: State, step: Step, g: nat)
    requires Enabled(s, step) && g in Next(s, step).loose && g !in s.loose
    ensures var s' := Next(s, step);
      exists k :: k in s'.rows && s'.rows[k].gen == g && Lower(s'.rows[k].meta.dataPolicy) != "once"
  {
    var t := step.t;
    var k := KeyOf(Target(s.threads[t].call));
    if LockStep(s, t).None? && !Lockless(s.threads[t].call) {
      var e := EffectOf(s.threads[t], RowAt(s, k), |s.births|, step.now, step.ok);
      assert e.taint == Some(g);
      CommitRow(s, t, e);
      assert k in Next(s, step).rows;
    }
  }

  /** And its callbacks never overlap any other critical section on the same row. */
  lemma OnceCallbackIsAlone(s: State, ids: iset<Id>, steps: seq<Step>, t: Tid, u: Tid)
    requires AtRest(s) && CaseDistinct(ids) && AsksOnly(steps, ids) && Legal(s, steps)
    requires var r := RunAll(s, steps); t in r.threads && r.threads[t].pc.Serving? && IsOnce(r.threads[t].pc.meta)
    requires var r := RunAll(s, steps); u in r.threads && u != t && InSection(r.threads[u].pc)
    ensures var r := RunAll(s, steps); KeyOf(Target(r.threads[u].call)) != KeyOf(Target(r.threads[t].call))
  {
    AtRestInv(s, ids);
    RunInv(s, ids, steps);
    var r := RunAll(s, steps);
    assert ThreadOk(r, t);
    if KeyOf(Target(r.threads[u].call)) == KeyOf(Target(r.threads[t].call)) {
      BothInSection(r, ids, t, u);
    }
  }

  // ---- Who may remove and change what ----

  predicate HoldsRow(s: State, t: Tid, k: RowKey)
    requires t in s.threads
  {
    InSection(s.threads[t].pc) && KeyOf(Target(s.threads[t].call)) == k
  }

  /** A row disappears only in the two sweeping statements or under its lock, in a call entitled to
      it: expired, deleted with the token in the row, or consumed by a one-time view that knows the
      password. */
  predicate RemovalOk(r: State, t: Tid, now: int, k: RowKey)
    requires t in r.threads && k in r.rows
  {
    var th, m := r.threads[t], r.rows[k].meta;
    || th.call.AdminDeleteAll?
    || (th.call.CleanupExpired? && SqlExpired(NullUnix(m.expiresAt), now))
    || (HoldsRow(r, t, k) && th.pc.DropRow? && MayDrop(th.call, th.pc.good, th.pc.at, m))
    || (HoldsRow(r, t, k) && th.pc.Consume? && MayConsume(th.call, m))
  }

  lemma RemovalIsAuthorized(s: State, ids: iset<Id>, steps: seq<Step>, t: Tid, now: int, ok: bool, k: RowKey)
    requires AtRest(s) && CaseDistinct(ids) && AsksOnly(steps, ids) && Legal(s, steps)
    requires var r := RunAll(s, steps);
      Enabled(r, Run(t, now, ok)) && k in r.rows && k !in Next(r, Run(t, now, ok)).rows
    ensures RemovalOk(RunAll(s, steps), t, now, k)
  {
    AtRestInv(s, ids);
    RunInv(s, ids, steps);
    var r := RunAll(s, steps);
    assert ThreadOk(r, t);
    if LockStep(r, t).Some? {
      LockKeepsRows(r, t);
    } else if !Lockless(r.threads[t].call) {
      StatementDrops(r, t, now, ok, k);
    }
  }

  lemma EffectDrops(th: Thread, row: Row, nextGen: nat, now: int, ok: bool)
    ensures EffectOf(th, Some(row), nextGen, now, ok).row.Remove? ==> th.pc.DropRow? || th.pc.Consume?
  {
  }

  lemma StatementDrops(r: State, t: Tid, now: int, ok: bool, k: RowKey)
    requires t in r.threads && LockStep(r, t).None? && !Lockless(r.threads[t].call)
    requires k in r.rows && k !in RunSql(r, t, now, ok).rows
    ensures KeyOf(Target(r.threads[t].call)) == k && (r.threads[t].pc.DropRow? || r.threads[t].pc.Consume?)
  {
    if KeyOf(Target(r.threads[t].call)) == k {
      EffectDrops(r.threads[t], r.rows[k], |r.births|, now, ok);
    }
  }

  lemma LockKeepsRows(s: State, t: Tid)
    requires t in s.threads && LockStep(s, t).Some? && L.Enabled(s.lk, LockStep(s, t).value)
    ensures RunLock(s, t).rows == s.rows
  {
  }

  /** A row that stays keeps its creation and body, and its columns change only by a label update,
      which sets nothing but the label, or under the exclusive lock in a call whose manage token is
      the one in the row, and then only the columns that call is about. */
  predicate EditOk(r: State, t: Tid, k: RowKey, row': Row)
    requires t in r.threads && k in r.rows
  {
    var th, row := r.threads[t], r.rows[k];
    && row'.gen == row.gen && row'.body == row.body
    && (|| row'.meta == row.meta
        || (th.call.SetLabel? && row'.meta == row.meta.(title := th.call.title))
        || (HoldsRow(r, t, k) && ModeOf(th) == L.Exclusive && MayUpdate(th.call, row.meta)
            && Edits(th.call, row.meta, row'.meta)))
  }

  lemma EditIsAuthorized(s: State, ids: iset<Id>, steps: seq<Step>, t: Tid, now: int, ok: bool, k: RowKey)
    requires AtRest(s) && CaseDistinct(ids) && AsksOnly(steps, ids) && Legal(s, steps)
    requires var r := RunAll(s, steps);
      Enabled(r, Run(t, now, ok)) && k in r.rows && k in Next(r, Run(t, now, ok)).rows
    ensures var r := RunAll(s, steps); EditOk(r, t, k, Next(r, Run(t, now, ok)).rows[k])
  {
    AtRestInv(s, ids);
    RunInv(s, ids, steps);
    var r := RunAll(s, steps);
    assert ThreadOk(r, t);
    if LockStep(r, t).Some? {
      LockKeepsRows(r, t);
    } else if !Lockless(r.threads[t].call) {
      StatementEdits(r, t, now, ok, k);
    }
  }

  lemma EffectEdits(th: Thread, row: Row, h: History, nextGen: nat, now: int, ok: bool)
    requires Knows(th, Some(row), h)
    ensures var e := EffectOf(th, Some(row), nextGen, now, ok);
      e.row.Put? ==>
        && (th.pc.Update? || th.pc.Unlocked?)
        && e.row.value == row.(meta := e.row.value.meta)
        && (row.meta == e.row.value.meta || Edits(th.call, row.meta, e.row.value.meta))
  {
  }

  lemma StatementEdits(r: State, t: Tid, now: int, ok: bool, k: RowKey)
    requires t in r.threads && LockStep(r, t).None? && !Lockless(r.threads[t].call) && ThreadOk(r, t)
    requires k in r.rows && k in RunSql(r, t, now, ok).rows
    ensures var th := r.threads[t]; var row, row' := r.rows[k], RunSql(r, t, now, ok).rows[k];
      || row' == row
      || (row' == row.(meta := row'.meta) && Edits(th.call, row.meta, row'.meta) && KeyOf(Target(th.call)) == k &&
        (th.pc.Update? || th.pc.Unlocked?))
  {
    var th := r.threads[t];
    if KeyOf(Target(th.call)) == k {
      EffectEdits(th, r.rows[k], HistoryOf(r), |r.births|, now, ok);
    }
  }

  /** At the unlock of a call that reports success, if the row is there it holds what was asked for; after
      a deletion it is not. */
  lemma SuccessIsTrue(s: State, ids: iset<Id>, steps: seq<Step>, t: Tid)
    requires AtRest(s) && CaseDistinct(ids) && AsksOnly(steps, ids) && Legal(s, steps)
    requires var r := RunAll(s, steps); t in r.threads && r.threads[t].pc == Leave(Return(true))
    ensures var r := RunAll(s, steps); var call := r.threads[t].call;
      Reported(call, RowAt(r, KeyOf(Target(call))))
  {
    AtRestInv(s, ids);
    RunInv(s, ids, steps);
    assert ThreadOk(RunAll(s, steps), t);
  }
}
