/** What every step of the local store keeps. */
module LocalStoreInv {
  import opened Common
  import opened Pastes
  import opened PasteHistory
  import opened LocalStore
  import L = LockProtocol

  // ---- The invariant ----

  predicate InSection(pc: Pc) {
    !pc.Reserve? && !pc.ReserveMeta? && !pc.Enter? && !pc.Blocked? && !pc.Drop? && !pc.Finished?
  }

  predicate Creating(pc: Pc) {
    pc.Fill? || pc.Publish? || pc.Abort?
  }

  /** A thread's lock phase is the one its program counter says, so it holds at most one key,
      the one its call is about, and exclusively unless it is a View before its upgrade. */
  predicate Shape(s: State, t: Tid)
    requires t in s.threads
  {
    var th := s.threads[t];
    var p := PhaseOf(s, t);
    if InSection(th.pc) then p.Holding? && p.key == Target(th.call) && p.mode == ModeOf(th)
    else if th.pc.Blocked? then p.Waiting? && p.key == Target(th.call) && p.mode == ModeOf(th)
    else if th.pc.Drop? then p.Released? && p.key == Target(th.call)
    else p.Idle?
  }

  /** The record a label update carries into its second section. */
  predicate Relabels(call: Call, m: Metadata) {
    call.SetLabel? && m.id == call.id && m.title == call.title
  }

  predicate AfterOk(after: After, call: Call) {
    after.Reenter? && after.stage.Relabel? ==> Relabels(call, after.stage.meta)
  }

  predicate StageOk(th: Thread) {
    && (th.stage.Relabel? ==> Relabels(th.call, th.stage.meta))
    && (th.stage.Upgraded? ==> th.call.View?)
    && (th.pc.Writing? && th.call.SetLabel? ==> th.stage == Relabel(th.pc.meta))
    && (th.pc.Leave? ==> AfterOk(th.pc.after, th.call))
    && (th.pc.Drop? ==> AfterOk(th.pc.after, th.call))
    && ((th.pc.Leave? || th.pc.Drop?) && th.pc.after.Reenter? ==>
          th.stage == First &&
          if th.pc.after.stage.Upgraded? then th.call.View? else th.pc.after.stage.Relabel? && th.call.SetLabel?)
    && (th.pc.Reserve? || th.pc.ReserveMeta? || Creating(th.pc) ==> th.call.Create?)
    && (th.call.Create? && InSection(th.pc) ==> th.pc.Inside? || th.pc.Leave? || Creating(th.pc))
  }

  function HistoryOf(s: State): History {
    History(s.births, s.log, s.loose)
  }

  /** No creation of `k` came after number `g`. */
  predicate Newest(k: Key, g: nat, births: seq<Birth>) {
    forall i :: g < i < |births| ==> births[i].id != k
  }

  /** What a thread inside its critical section knows about content and sidecar of its key. */
  ghost predicate Knows(th: Thread, t: Tid, file: Option<File>, meta: Option<Metadata>, h: History) {
    var k := Target(th.call);
    var exclusive := ModeOf(th) == L.Exclusive;
    match th.pc
    case Opening(m, at) =>
      && (th.call.View? || th.call.Open?)
      && (meta.Some? ==> meta.value == m)
      && (exclusive ==> meta.Some?)
      && PasswordOk(m, th.call.password) && !IsExpired(m, at)
      && (!IsOnce(m) && file.Some? ==> file.value.gen in h.loose)
      && (th.call.View? && IsOnce(m) ==> exclusive)
    case Serving(m, at, g, body) =>
      && th.call.View? && PasswordOk(m, th.call.password) && !IsExpired(m, at)
      && g < |h.births| && h.births[g].id == k && body == h.births[g].source && Newest(k, g, h.births)
      && (file.Some? ==> file.value.gen == g)
      && (meta.Some? ==> meta.value == m)
      && (exclusive ==> file.Some? && meta.Some?)
      && !Consumed(h.log, g)
      && (if IsOnce(m) then exclusive else g in h.loose)
    case Purge(at) => meta.Some? ==> IsExpired(meta.value, at)
    case PurgeMeta => file.None?
    case Erase => exclusive && MayErase(th, t, file, meta)
    case EraseMeta => exclusive && file.None? && Erases(th.call)
    case Writing(m) => exclusive && m.id == k && MayWrite(th.call, meta, m)
    case Leave(after) => after == Return(true) ==> Reported(th.call, file, meta)
    case Fill(g) => exclusive && Owns(th, t, file, g, h)
    case Publish(g) => exclusive && Owns(th, t, file, g, h) && file.value.bytes == th.call.source
    case Abort(g) => exclusive && Owns(th, t, file, g, h)
    case _ => true
  }

  /** What entitles a thread to remove a paste that has not expired: the token its sidecar asks for,
      a one-time view that succeeded on this very file, or being the administrator. */
  predicate MayErase(th: Thread, t: Tid, file: Option<File>, meta: Option<Metadata>) {
    match th.call
    case Delete(_, token) => meta.Some? && DeleteTokenOk(meta.value, token)
    case DeleteManaged(_, token) => meta.Some? && ManageTokenOk(meta.value, token)
    case View(_, password) =>
      meta.Some? && IsOnce(meta.value) && PasswordOk(meta.value, password) && file.Some? &&
        file.value.consumer == Some(t)
    case _ => th.call.AdminDelete? || th.call.AdminDeleteAll?
  }

  predicate Erases(call: Call) {
    call.Delete? || call.DeleteManaged? || call.View? || call.AdminDelete? || call.AdminDeleteAll?
  }

  /** An edit of the sidecar is entitled by the manage token and changes the one field it is about.
      A label update writes back the record of its first section, whatever the sidecar is now. */
  predicate MayWrite(call: Call, meta: Option<Metadata>, m: Metadata) {
    Relabels(call, m) || (meta.Some? && Edits(call, meta.value, m))
  }

  predicate Edits(call: Call, before: Metadata, after: Metadata) {
    match call
    case SetPassword(_, token, hash) =>
      ManageTokenOk(before, token) && before.passwordHash == "" && after == before.(passwordHash := hash)
    case ClearPassword(_, token, password) =>
      ManageTokenOk(before, token) && PasswordOk(before, password) && after == before.(passwordHash := "")
    case SetDataPolicy(_, token, policy, expiresAt) =>
      ManageTokenOk(before, token) && after == before.(dataPolicy := policy, expiresAt := expiresAt)
    case _ => false
  }

  /** What a call that is about to report success has achieved. */
  predicate Reported(call: Call, file: Option<File>, meta: Option<Metadata>) {
    match call
    case Create(_, _, source, _) =>
      file.Some? && file.value.published && file.value.bytes == source && meta == Some(NewMeta(call))
    case Delete(_, _) => file.None? && meta.None?
    case DeleteManaged(_, _) => file.None? && meta.None?
    case AdminDelete(_) => file.None? && meta.None?
    case SetLabel(_, _, title) => meta.Some? && meta.value.title == title
    case SetPassword(_, _, hash) => meta.Some? && meta.value.passwordHash == hash
    case ClearPassword(_, _, _) => meta.Some? && meta.value.passwordHash == ""
    case SetDataPolicy(_, _, policy, expiresAt) =>
      meta.Some? && meta.value.dataPolicy == policy && meta.value.expiresAt == expiresAt
    case _ => true
  }

  /** `t` is creating this file: it is not yet published and nobody has consumed it. */
  predicate Owns(th: Thread, t: Tid, file: Option<File>, g: nat, h: History) {
    && th.call.Create? && file.Some?
    && g < |h.births| && h.births[g].source == th.call.source
    && file.value.gen == g && !file.value.published && file.value.creator == t && file.value.consumer.None?
  }

  ghost predicate ThreadOk(s: State, t: Tid)
    requires t in s.threads
  {
    var th := s.threads[t];
    && Shape(s, t)
    && StageOk(th)
    && Knows(th, t, FileAt(s, Target(th.call)), MetaAt(s, Target(th.call)), HistoryOf(s))
  }

  /** What holds of a content file and its sidecar, whoever looks. */
  ghost predicate Sound(k: Key, f: File, meta: Option<Metadata>, h: History) {
    && f.gen < |h.births| && h.births[f.gen].id == k && Newest(k, f.gen, h.births)
    && (f.published ==> f.bytes == h.births[f.gen].source)
    && (f.published ==> meta.Some? && (!IsOnce(meta.value) ==> f.gen in h.loose))
    && (Consumed(h.log, f.gen) ==> f.consumer.Some?)
  }

  /** An unpublished file has its creator at work, a consumed one its consumer. */
  predicate Attended(s: State, k: Key, f: File) {
    && (!f.published ==> f.creator in s.threads && Creating(s.threads[f.creator].pc)
                         && Target(s.threads[f.creator].call) == k)
    && (f.consumer.Some? ==> f.consumer.value in s.threads && s.threads[f.consumer.value].pc.Erase?
                             && Target(s.threads[f.consumer.value].call) == k)
  }

  ghost predicate FileOk(s: State, k: Key)
    requires k in s.content
  {
    Sound(k, s.content[k], MetaAt(s, k), HistoryOf(s)) && Attended(s, k, s.content[k])
  }

  predicate EventOk(s: State, e: Event) {
    && e.gen < |s.births| && s.births[e.gen].id == e.id
    && (e.Viewed? ==> e.body == s.births[e.gen].source)
    && (e.Viewed? && e.gen !in s.loose ==> e.once)
  }

  /** Of one id, later events are never about earlier creations. */
  predicate InOrder(log: seq<Event>) {
    forall i, j :: 0 <= i < j < |log| && log[i].id == log[j].id ==> log[i].gen <= log[j].gen
  }

  ghost predicate LogOk(s: State) {
    && (forall i :: 0 <= i < |s.log| ==> EventOk(s, s.log[i]))
    && Final(s.log)
    && InOrder(s.log)
  }

  ghost predicate Inv(s: State) {
    && L.Inv(s.lk)
    && (forall t :: t in s.threads ==> ThreadOk(s, t))
    && (forall t :: t !in s.threads ==> PhaseOf(s, t).Idle?)
    && (forall k :: k in s.content ==> FileOk(s, k))
    && (forall k :: k in s.meta ==> s.meta[k].id == k)
    && LogOk(s)
  }

  /** A directory at rest, as left by any earlier run: every content file has its sidecar. */
  ghost predicate AtRest(s: State) {
    && s.lk == L.INIT && s.threads == map[] && s.log == []
    && (forall k :: k in s.content ==>
          && s.content[k].gen < |s.births| && s.births[s.content[k].gen] == Birth(k, s.content[k].bytes)
          && Newest(k, s.content[k].gen, s.births)
          && s.content[k].published && s.content[k].consumer.None?
          && k in s.meta && (!IsOnce(s.meta[k]) ==> s.content[k].gen in s.loose))
    && (forall k :: k in s.meta ==> s.meta[k].id == k)
  }

  lemma AtRestInv(s: State)
    requires AtRest(s)
    ensures Inv(s)
  {
    L.InitInv();
  }

  // ---- Mutual exclusion, from the lock protocol ----

  lemma BothInSection(s: State, t: Tid, u: Tid)
    requires Inv(s) && t != u && t in s.threads && u in s.threads
    requires InSection(s.threads[t].pc) && InSection(s.threads[u].pc)
    requires Target(s.threads[t].call) == Target(s.threads[u].call)
    ensures ModeOf(s.threads[t]) == L.Shared && ModeOf(s.threads[u]) == L.Shared
  {
    assert ThreadOk(s, t) && ThreadOk(s, u);
    L.WriterExcludes(s.lk, t, u);
    L.WriterExcludes(s.lk, u, t);
  }

  // ---- Frames ----

  /** `s'` differs from `s` in thread `t` and in the files and history of key `k` only. */
  ghost predicate Local(s: State, s': State, t: Tid, k: Key) {
    && t in s'.threads
    && (forall u :: u != t ==> (u in s.threads <==> u in s'.threads) && PhaseOf(s', u) == PhaseOf(s, u))
    && (forall u :: u != t && u in s.threads ==> s'.threads[u] == s.threads[u])
    && (forall j :: j != k ==> (j in s.content <==> j in s'.content) && (j in s.meta <==> j in s'.meta))
    && (forall j :: j != k && j in s.content ==> s'.content[j] == s.content[j])
    && (forall j :: j != k && j in s.meta ==> s'.meta[j] == s.meta[j])
    && s.births <= s'.births && (forall i :: |s.births| <= i < |s'.births| ==> s'.births[i].id == k)
    && s.loose <= s'.loose
    && Grows(s.log, s'.log)
    && (|s'.log| > |s.log| ==> s'.log[|s.log|].id == k)
  }

  /** The files of `k` may have been removed but not changed, and no one-time view was logged. */
  ghost predicate OnlyRemoves(s: State, s': State, k: Key) {
    && (k in s'.content ==> k in s.content && s'.content[k] == s.content[k])
    && (k in s'.meta ==> k in s.meta && s'.meta[k] == s.meta[k])
    && !LogsOnce(s.log, s'.log) && s'.births == s.births
  }

  /** What a thread knows survives other threads' steps: they touch its key only under a shared
      lock, and then only to remove. */
  lemma KnowsSurvives(th: Thread, u: Tid, file: Option<File>, file': Option<File>,
                      meta: Option<Metadata>, meta': Option<Metadata>, h: History, h': History)
    requires Knows(th, u, file, meta, h)
    requires file' == file || (file'.None? && ModeOf(th) == L.Shared)
    requires meta' == meta || (meta'.None? && ModeOf(th) == L.Shared)
    requires h.births <= h'.births && h.loose <= h'.loose
    requires forall i :: |h.births| <= i < |h'.births| ==> h'.births[i].id != Target(th.call)
    requires th.pc.Serving? && Consumed(h'.log, th.pc.gen) ==> Consumed(h.log, th.pc.gen)
    ensures Knows(th, u, file', meta', h')
  {
  }

  lemma OtherKnows(s: State, s': State, t: Tid, k: Key, u: Tid)
    requires Inv(s) && Local(s, s', t, k) && u != t && u in s.threads
    requires |s'.log| > |s.log| ==> EventOk(s', s'.log[|s.log|])
    requires Target(s.threads[u].call) == k && InSection(s.threads[u].pc) ==>
      ModeOf(s.threads[u]) == L.Shared && OnlyRemoves(s, s', k)
    ensures ThreadOk(s', u)
  {
    assert ThreadOk(s, u);
    var th := s.threads[u];
    if InSection(th.pc) {
      var j := Target(th.call);
      if th.pc.Serving? && Consumed(s'.log, th.pc.gen) {
        ConsumedGrows(s.log, s'.log, th.pc.gen);
      }
      KnowsSurvives(th, u, FileAt(s, j), FileAt(s', j), MetaAt(s, j), MetaAt(s', j), HistoryOf(s), HistoryOf(s'));
    }
  }

  lemma OtherSound(s: State, s': State, t: Tid, k: Key, j: Key)
    requires Local(s, s', t, k) && j != k && j in s.content
    requires Sound(j, s.content[j], MetaAt(s, j), HistoryOf(s))
    requires |s'.log| > |s.log| ==> EventOk(s', s'.log[|s.log|])
    ensures Sound(j, s.content[j], MetaAt(s', j), HistoryOf(s'))
  {
    var f := s.content[j];
    if Consumed(s'.log, f.gen) {
      ConsumedGrows(s.log, s'.log, f.gen);
    }
  }

  lemma OtherAttended(s: State, s': State, t: Tid, k: Key, j: Key)
    requires Local(s, s', t, k) && j != k && j in s.content && Attended(s, j, s.content[j])
    requires t in s.threads ==> Target(s.threads[t].call) == k || !InSection(s.threads[t].pc)
    ensures Attended(s', j, s.content[j])
  {
  }

  lemma OtherFile(s: State, s': State, t: Tid, k: Key, j: Key)
    requires Inv(s) && Local(s, s', t, k) && j != k && j in s'.content
    requires |s'.log| > |s.log| ==> EventOk(s', s'.log[|s.log|])
    requires t in s.threads ==> Target(s.threads[t].call) == k || !InSection(s.threads[t].pc)
    ensures FileOk(s', j)
  {
    assert FileOk(s, j);
    OtherSound(s, s', t, k, j);
    OtherAttended(s, s', t, k, j);
  }

  lemma OtherThread(s: State, s': State, t: Tid, k: Key, u: Tid)
    requires Inv(s) && Local(s, s', t, k) && u != t && u in s.threads
    requires |s'.log| > |s.log| ==> EventOk(s', s'.log[|s.log|])
    requires t in s.threads && InSection(s.threads[t].pc) && Target(s.threads[t].call) == k
    requires OnlyRemoves(s, s', k) || ModeOf(s.threads[t]) == L.Exclusive
    ensures ThreadOk(s', u)
  {
    if Target(s.threads[u].call) == k && InSection(s.threads[u].pc) {
      BothInSection(s, t, u);
    }
    OtherKnows(s, s', t, k, u);
  }

  /** A step inside a critical section that respects what it touches keeps the whole invariant. */
  lemma Lift(s: State, s': State, t: Tid, k: Key)
    requires Inv(s) && Local(s, s', t, k) && s'.lk == s.lk
    requires t in s.threads && InSection(s.threads[t].pc) && Target(s.threads[t].call) == k
    requires OnlyRemoves(s, s', k) || ModeOf(s.threads[t]) == L.Exclusive
    requires ThreadOk(s', t)
    requires k in s'.content ==> FileOk(s', k)
    requires k in s'.meta ==> s'.meta[k].id == k
    requires |s'.log| > |s.log| ==> EventOk(s', s'.log[|s.log|]) && !Consumed(s.log, s'.log[|s.log|].gen)
    requires |s'.log| > |s.log| ==> Newest(k, s'.log[|s.log|].gen, s.births)
    ensures Inv(s')
  {
    forall u | u in s'.threads && u != t ensures ThreadOk(s', u) {
      OtherThread(s, s', t, k, u);
    }
    forall j | j in s'.content && j != k ensures FileOk(s', j) {
      OtherFile(s, s', t, k, j);
    }
    LiftLog(s, s', t, k);
  }

  /** `s'` differs from `s` in locks and thread `t` only, and `t` is not attending a file. */
  ghost predicate Quiet(s: State, s': State, t: Tid) {
    && t in s'.threads
    && s' == s.(lk := s'.lk, threads := s.threads[t := s'.threads[t]])
    && (forall u :: u != t ==> PhaseOf(s', u) == PhaseOf(s, u))
    && (t in s.threads ==> !Creating(s.threads[t].pc) && !s.threads[t].pc.Erase?)
  }

  lemma QuietThread(s: State, s': State, t: Tid, u: Tid)
    requires Quiet(s, s', t) && u != t && u in s.threads && ThreadOk(s, u)
    ensures ThreadOk(s', u)
  {
  }

  lemma QuietFile(s: State, s': State, t: Tid, j: Key)
    requires Quiet(s, s', t) && j in s.content && FileOk(s, j)
    ensures FileOk(s', j)
  {
  }

  lemma QuietLog(s: State, s': State, t: Tid)
    requires Quiet(s, s', t) && LogOk(s)
    ensures LogOk(s')
  {
    assert forall i :: 0 <= i < |s.log| ==> EventOk(s, s.log[i]);
  }

  /** Lock steps, decisions before the lock, the start of a call. */
  lemma LiftQuiet(s: State, s': State, t: Tid)
    requires Inv(s) && Quiet(s, s', t) && L.Inv(s'.lk) && ThreadOk(s', t)
    ensures Inv(s')
  {
    forall u | u in s'.threads && u != t ensures ThreadOk(s', u) {
      QuietThread(s, s', t, u);
    }
    forall j | j in s'.content ensures FileOk(s', j) {
      QuietFile(s, s', t, j);
    }
    QuietLog(s, s', t);
  }

  lemma LiftLog(s: State, s': State, t: Tid, k: Key)
    requires Inv(s) && Local(s, s', t, k)
    requires |s'.log| > |s.log| ==> EventOk(s', s'.log[|s.log|]) && !Consumed(s.log, s'.log[|s.log|].gen)
    requires |s'.log| > |s.log| ==> Newest(k, s'.log[|s.log|].gen, s.births)
    ensures LogOk(s')
  {
    forall i | 0 <= i < |s'.log| ensures EventOk(s', s'.log[i]) {
      if i < |s.log| {
        assert s'.log[..|s.log|][i] == s'.log[i];
        assert EventOk(s, s.log[i]);
      }
    }
    FinalGrows(s.log, s'.log);
    OrderGrows(s, s'.log, k);
  }

  lemma OrderGrows(s: State, log': seq<Event>, k: Key)
    requires LogOk(s) && Grows(s.log, log')
    requires |log'| > |s.log| ==> log'[|s.log|].id == k && Newest(k, log'[|s.log|].gen, s.births)
    ensures InOrder(log')
  {
    forall i, j | 0 <= i < j < |log'| && log'[i].id == log'[j].id ensures log'[i].gen <= log'[j].gen {
      assert log'[..|s.log|][i] == log'[i];
      assert EventOk(s, s.log[i]);
      if j < |s.log| {
        assert log'[..|s.log|][j] == log'[j];
      }
    }
  }
}
