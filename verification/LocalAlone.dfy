/** What each call of the local store does when nobody is in its way, told from the two files of its
    id alone: from every state in which no lock is in use, a run of the call ends as the tables below
    say. Conditions are on the fields of the sidecar, as the source's checks are. */
module LocalAlone {
  import opened Common
  import opened Pastes
  import opened PasteHistory
  import opened LocalStore
  import opened LocalStoreInv
  import opened LocalRuns
  import L = LockProtocol

  /** Thread `t` may begin a call on `id`, and no lock is in its way. */
  ghost predicate Ready(s: State, t: Tid, id: Key) {
    Unlocked(s) && (t in s.threads ==> s.threads[t].pc.Finished?) && (id in s.meta ==> s.meta[id].id == id)
  }

  /** The call has ended and reported `ok`. It left these two files and this log; no other thread, no
      other key is touched, and no lock is in use. */
  ghost predicate Ends(s: State, steps: seq<Step>, r: State, t: Tid, call: Call, ok: bool,
                       file: Option<File>, meta: Option<Metadata>, log: seq<Event>)
    requires !Sweeps(call)
  {
    && Leads(s, steps, r) && Unlocked(r) && Only(s, r, t, call.id)
    && r.threads[t].call == call && r.threads[t].pc == Finished(ok)
    && FileAt(r, call.id) == file && MetaAt(r, call.id) == meta && r.log == log
  }

  function Start(s: State, call: Call): Scene {
    Scene(Inside, FileAt(s, Target(call)), MetaAt(s, Target(call)), s.births, s.log)
  }

  lemma OneSection(s: State, t: Tid, call: Call, now: int, ok: bool, end: Scene) returns (steps: seq<Step>, r: State)
    requires !Sweeps(call) && !call.Create? && Ready(s, t, call.id) && Accepted(call)
    requires Gets(Thread(call, First, Enter), t, Start(s, call), now, ok, end) && end.pc.after.Return?
    ensures Ends(s, steps, r, t, call, end.pc.after.ok, end.file, end.meta, end.log)
  {
    var s1 := Begins(s, t, call);
    assert SceneOf(s1, t).(pc := Inside) == Start(s, call);
    var rest;
    rest, r := Section(s1, t, now, ok, end);
    Chain(s, [Begin(t, call)], s1, rest, r);
    OnlyThen(s, s1, r, t, call.id);
    steps := [Begin(t, call)] + rest;
  }

  // ---- Calls of one section ----

  /** An id that is not one, or a blank token, ends the call before it has touched anything. */
  lemma RejectedAlone(s: State, t: Tid, call: Call) returns (steps: seq<Step>, r: State)
    requires !Sweeps(call) && Ready(s, t, call.id)
    requires !ValidID(call.id) ||
      (!call.Create? && !call.Open? && !call.View? && !call.AdminDelete? && call.token.blank)
    ensures Ends(s, steps, r, t, call, false, FileAt(s, call.id), MetaAt(s, call.id), s.log)
  {
    r := Begins(s, t, call);
    steps := [Begin(t, call)];
  }

  lemma OpenAlone(s: State, t: Tid, id: Key, password: Secret, now: int) returns (steps: seq<Step>, r: State)
    requires Ready(s, t, id) && ValidID(id)
    ensures var call, file, m := Open(id, password), FileAt(s, id), MetaAt(s, id);
      if m.None? then Ends(s, steps, r, t, call, false, file, None, s.log)
      else if m.value.expiresAt.Some? && m.value.expiresAt.value < now && Lower(m.value.dataPolicy) != "permanent" then
        Ends(s, steps, r, t, call, false, None, None, s.log)
      else if m.value.passwordHash != "" && (password.blank || password.hash != m.value.passwordHash) then
        Ends(s, steps, r, t, call, false, file, m, s.log)
      else if file.None? then Ends(s, steps, r, t, call, false, None, m, s.log)
      else Ends(s, steps, r, t, call, true, file, m, s.log + [Opened(id, file.value.gen)])
  {
    var end := TwoGets(Thread(Open(id, password), First, Enter), t, Start(s, Open(id, password)), now, true);
    steps, r := OneSection(s, t, Open(id, password), now, true, end);
  }

  lemma DeleteAlone(s: State, t: Tid, id: Key, token: Secret, now: int) returns (steps: seq<Step>, r: State)
    requires Ready(s, t, id) && ValidID(id) && !token.blank
    ensures var call, file, m := Delete(id, token), FileAt(s, id), MetaAt(s, id);
      if m.Some? && m.value.deleteTokenHash != "" && token.hash == m.value.deleteTokenHash then
        Ends(s, steps, r, t, call, true, None, None, s.log)
      else Ends(s, steps, r, t, call, false, file, m, s.log)
  {
    var end := TwoGets(Thread(Delete(id, token), First, Enter), t, Start(s, Delete(id, token)), now, true);
    steps, r := OneSection(s, t, Delete(id, token), now, true, end);
  }

  lemma AdminDeleteAlone(s: State, t: Tid, id: Key, now: int) returns (steps: seq<Step>, r: State)
    requires Ready(s, t, id) && ValidID(id)
    ensures Ends(s, steps, r, t, AdminDelete(id), true, None, None, s.log)
  {
    var end := TwoGets(Thread(AdminDelete(id), First, Enter), t, Start(s, AdminDelete(id)), now, true);
    steps, r := OneSection(s, t, AdminDelete(id), now, true, end);
  }

  lemma ManagedAlone(s: State, t: Tid, call: Call, now: int) returns (steps: seq<Step>, r: State)
    requires call.DeleteManaged? || call.ManageMetadata?
    requires Ready(s, t, call.id) && ValidID(call.id) && !call.token.blank
    ensures var file, m := FileAt(s, call.id), MetaAt(s, call.id);
      if m.None? then Ends(s, steps, r, t, call, false, file, None, s.log)
      else if m.value.expiresAt.Some? && m.value.expiresAt.value < now && Lower(m.value.dataPolicy) != "permanent" then
        Ends(s, steps, r, t, call, false, None, None, s.log)
      else if m.value.manageTokenHash == "" || call.token.hash != m.value.manageTokenHash then
        Ends(s, steps, r, t, call, false, file, m, s.log)
      else if call.DeleteManaged? then Ends(s, steps, r, t, call, true, None, None, s.log)
      else Ends(s, steps, r, t, call, true, file, m, s.log)
  {
    var end := TwoGets(Thread(call, First, Enter), t, Start(s, call), now, true);
    steps, r := OneSection(s, t, call, now, true, end);
  }

  lemma SetPasswordAlone(s: State, t: Tid, call: Call, now: int) returns (steps: seq<Step>, r: State)
    requires call.SetPassword? && Ready(s, t, call.id) && ValidID(call.id) && !call.token.blank
    ensures var file, m := FileAt(s, call.id), MetaAt(s, call.id);
      if m.None? then Ends(s, steps, r, t, call, false, file, None, s.log)
      else if m.value.expiresAt.Some? && m.value.expiresAt.value < now && Lower(m.value.dataPolicy) != "permanent" then
        Ends(s, steps, r, t, call, false, None, None, s.log)
      else if m.value.manageTokenHash == "" || call.token.hash != m.value.manageTokenHash then
        Ends(s, steps, r, t, call, false, file, m, s.log)
      else if m.value.passwordHash != "" then Ends(s, steps, r, t, call, false, file, m, s.log)
      else Ends(s, steps, r, t, call, true, file, Some(m.value.(passwordHash := call.hash)), s.log)
  {
    var end := TwoGets(Thread(call, First, Enter), t, Start(s, call), now, true);
    steps, r := OneSection(s, t, call, now, true, end);
  }

  lemma ClearPasswordAlone(s: State, t: Tid, call: Call, now: int) returns (steps: seq<Step>, r: State)
    requires call.ClearPassword? && Ready(s, t, call.id) && ValidID(call.id) && !call.token.blank
    ensures var file, m := FileAt(s, call.id), MetaAt(s, call.id);
      if m.None? then Ends(s, steps, r, t, call, false, file, None, s.log)
      else if m.value.expiresAt.Some? && m.value.expiresAt.value < now && Lower(m.value.dataPolicy) != "permanent" then
        Ends(s, steps, r, t, call, false, None, None, s.log)
      else if m.value.manageTokenHash == "" || call.token.hash != m.value.manageTokenHash then
        Ends(s, steps, r, t, call, false, file, m, s.log)
      else if m.value.passwordHash != "" && (call.password.blank || call.password.hash != m.value.passwordHash) then
        Ends(s, steps, r, t, call, false, file, m, s.log)
      else Ends(s, steps, r, t, call, true, file, Some(m.value.(passwordHash := "")), s.log)
  {
    var end := TwoGets(Thread(call, First, Enter), t, Start(s, call), now, true);
    steps, r := OneSection(s, t, call, now, true, end);
  }

  lemma PolicyAlone(s: State, t: Tid, call: Call, now: int) returns (steps: seq<Step>, r: State)
    requires call.SetDataPolicy? && Ready(s, t, call.id) && ValidID(call.id) && !call.token.blank
    ensures var file, m := FileAt(s, call.id), MetaAt(s, call.id);
      if m.None? then Ends(s, steps, r, t, call, false, file, None, s.log)
      else if m.value.expiresAt.Some? && m.value.expiresAt.value < now && Lower(m.value.dataPolicy) != "permanent" then
        Ends(s, steps, r, t, call, false, None, None, s.log)
      else if m.value.manageTokenHash == "" || call.token.hash != m.value.manageTokenHash then
        Ends(s, steps, r, t, call, false, file, m, s.log)
      else
        var m' := m.value.(dataPolicy := call.policy, expiresAt := call.expiresAt);
        Ends(s, steps, r, t, call, true, file, Some(m'), s.log)
  {
    var end := TwoGets(Thread(call, First, Enter), t, Start(s, call), now, true);
    steps, r := OneSection(s, t, call, now, true, end);
  }

  // ---- Two sections ----

  /** A View up to the section in which it is served or refused. */
  lemma ReachesStage(s: State, t: Tid, id: Key, password: Secret, now: int, ok: bool)
    returns (steps: seq<Step>, q: State)
    requires Ready(s, t, id) && ValidID(id)
    ensures Leads(s, steps, q) && Unlocked(q) && Only(s, q, t, id)
    ensures var call := View(id, password);
      var upgrades := Act(Thread(call, First, Enter), t, Start(s, call), now, ok).pc == Leave(Reenter(Upgraded));
      && q.threads[t] == Thread(call, if upgrades then Upgraded else First, Enter)
      && SceneOf(q, t).(pc := Inside) == Start(s, call)
  {
    var call := View(id, password);
    var th, start := Thread(call, First, Enter), Start(s, call);
    q := Begins(s, t, call);
    steps := [Begin(t, call)];
    if Act(th, t, start, now, ok).pc == Leave(Reenter(Upgraded)) {
      var end := Act(th, t, start, now, ok);
      TailGets(th, t, end, now, ok);
      StepGets(th, t, start, now, ok, end);
      var s1 := q;
      assert SceneOf(s1, t).(pc := Inside) == start;
      var rest;
      rest, q := Section(s1, t, now, ok, end);
      Chain(s, steps, s1, rest, q);
      OnlyThen(s, s1, q, t, id);
      steps := steps + rest;
    }
  }

  /** A View past its checks. */
  lemma ServedGets(th: Thread, t: Tid, c: Scene, now: int, ok: bool) returns (end: Scene)
    requires th.call.View? && c.pc.Opening?
    ensures Gets(th, t, c, now, ok, end)
    ensures var k, once := th.call.id, Lower(c.pc.meta.dataPolicy) == "once";
      if c.file.None? || !ok then end == c.(pc := Leave(Return(false)))
      else var log := c.log + [Viewed(k, c.file.value.gen, once, c.file.value.bytes)];
        end == if once then Scene(Leave(Return(true)), None, None, c.births, log)
               else Scene(Leave(Return(true)), c.file, c.meta, c.births, log)
  {
    end := TwoGets(th, t, c, now, ok);
  }

  lemma ViewRefused(s: State, t: Tid, id: Key, password: Secret, now: int, ok: bool)
    returns (steps: seq<Step>, r: State)
    requires Ready(s, t, id) && ValidID(id)
    requires id in s.meta ==> !CanRead(s.meta[id], password, now)
    ensures var call, file, m := View(id, password), FileAt(s, id), MetaAt(s, id);
      if m.None? then Ends(s, steps, r, t, call, false, file, None, s.log)
      else if m.value.expiresAt.Some? && m.value.expiresAt.value < now && Lower(m.value.dataPolicy) != "permanent" then
        Ends(s, steps, r, t, call, false, None, None, s.log)
      else Ends(s, steps, r, t, call, false, file, m, s.log)
  {
    var call := View(id, password);
    var first, q := ReachesStage(s, t, id, password, now, ok);
    var th, start := q.threads[t], Start(s, call);
    var c := Act(th, t, start, now, ok);
    var end := Tail(call, c);
    TailGets(th, t, c, now, ok);
    StepGets(th, t, start, now, ok, end);
    var second;
    second, r := Section(q, t, now, ok, end);
    Chain(s, first, q, second, r);
    OnlyThen(s, q, r, t, id);
    steps := first + second;
  }

  lemma ViewServed(s: State, t: Tid, id: Key, password: Secret, now: int, ok: bool)
    returns (steps: seq<Step>, r: State)
    requires Ready(s, t, id) && ValidID(id)
    requires id in s.meta && CanRead(s.meta[id], password, now)
    ensures var call, file, m := View(id, password), FileAt(s, id), s.meta[id];
      if file.None? || !ok then Ends(s, steps, r, t, call, false, file, Some(m), s.log)
      else if Lower(m.dataPolicy) == "once" then
        Ends(s, steps, r, t, call, true, None, None, s.log + [Viewed(id, file.value.gen, true, file.value.bytes)])
      else
        Ends(s, steps, r, t, call, true, file, Some(m), s.log + [Viewed(id, file.value.gen, false, file.value.bytes)])
  {
    var call := View(id, password);
    var first, q := ReachesStage(s, t, id, password, now, ok);
    var th, start := q.threads[t], Start(s, call);
    var end := ServedGets(th, t, Act(th, t, start, now, ok), now, ok);
    StepGets(th, t, start, now, ok, end);
    var second;
    second, r := Section(q, t, now, ok, end);
    Chain(s, first, q, second, r);
    OnlyThen(s, q, r, t, id);
    steps := first + second;
  }

  /** In time, and the password is known or not asked for. */
  predicate CanRead(m: Metadata, password: Secret, now: int) {
    && (m.expiresAt.None? || now <= m.expiresAt.value || Lower(m.dataPolicy) == "permanent")
    && (m.passwordHash == "" || (!password.blank && password.hash == m.passwordHash))
  }

  /** A View whose paste is there, in time and with the right password is served: the callback gets the
      bytes of the file, and a paste to be viewed once is gone when the callback succeeds. */
  lemma ViewAlone(s: State, t: Tid, id: Key, password: Secret, now: int, ok: bool)
    returns (steps: seq<Step>, r: State)
    requires Ready(s, t, id) && ValidID(id)
    ensures var call, file, m := View(id, password), FileAt(s, id), MetaAt(s, id);
      if m.None? then Ends(s, steps, r, t, call, false, file, None, s.log)
      else if m.value.expiresAt.Some? && m.value.expiresAt.value < now && Lower(m.value.dataPolicy) != "permanent" then
        Ends(s, steps, r, t, call, false, None, None, s.log)
      else if m.value.passwordHash != "" && (password.blank || password.hash != m.value.passwordHash) then
        Ends(s, steps, r, t, call, false, file, m, s.log)
      else if file.None? then Ends(s, steps, r, t, call, false, None, m, s.log)
      else if !ok then Ends(s, steps, r, t, call, false, file, m, s.log)
      else if Lower(m.value.dataPolicy) == "once" then
        Ends(s, steps, r, t, call, true, None, None, s.log + [Viewed(id, file.value.gen, true, file.value.bytes)])
      else
        Ends(s, steps, r, t, call, true, file, m, s.log + [Viewed(id, file.value.gen, false, file.value.bytes)])
  {
    if id in s.meta && CanRead(s.meta[id], password, now) {
      steps, r := ViewServed(s, t, id, password, now, ok);
    } else {
      steps, r := ViewRefused(s, t, id, password, now, ok);
    }
  }

  /** A View into its callback, while others may be in theirs. */
  lemma ReachesCallback(s: State, t: Tid, id: Key, password: Secret, now: int) returns (steps: seq<Step>, r: State)
    requires L.Inv(s.lk) && L.PhaseOf(s.lk, t).Idle? && (t in s.threads ==> s.threads[t].pc.Finished?) && ValidID(id)
    requires forall u :: L.PhaseOf(s.lk, u).Holding? && L.PhaseOf(s.lk, u).key == id ==>
      L.PhaseOf(s.lk, u).mode == L.Shared
    requires Servable(s, id, password, now) && s.meta[id].id == id
    ensures Leads(s, steps, r) && L.Inv(r.lk) && L.SamePhases(s.lk, r.lk, t) && Only(s, r, t, id)
    ensures L.PhaseOf(r.lk, t).Holding? && L.PhaseOf(r.lk, t).mode == L.Shared
    ensures var pc := Serving(s.meta[id], now, s.content[id].gen, s.content[id].bytes);
      && r.threads[t] == Thread(View(id, password), First, pc)
      && FileAt(r, id) == FileAt(s, id) && MetaAt(r, id) == MetaAt(s, id) && r.log == s.log
  {
    var call := View(id, password);
    var s1 := Begins(s, t, call);
    var second, s2 := Take(s1, t, now);
    Chain(s, [Begin(t, call)], s1, second, s2);
    var third;
    third, r := IntoCallback(s2, t, id, password, now);
    Chain(s, [Begin(t, call)] + second, s2, third, r);
    steps := [Begin(t, call)] + second + third;
  }

  /** Its two steps from the lock to the callback. */
  lemma IntoCallback(s: State, t: Tid, id: Key, password: Secret, now: int) returns (steps: seq<Step>, r: State)
    requires t in s.threads && s.threads[t] == Thread(View(id, password), First, Inside)
    requires Servable(s, id, password, now) && s.meta[id].id == id
    ensures Leads(s, steps, r) && r.lk == s.lk && Only(s, r, t, id)
    ensures var pc := Serving(s.meta[id], now, s.content[id].gen, s.content[id].bytes);
      && r.threads[t] == Thread(View(id, password), First, pc)
      && FileAt(r, id) == FileAt(s, id) && MetaAt(r, id) == MetaAt(s, id) && r.log == s.log
  {
    var s1 := FileTick(s, t, now, true);
    assert SceneOf(s1, t).pc == s1.threads[t].pc == Opening(s.meta[id], now);
    r := FileTick(s1, t, now, true);
    assert SceneOf(r, t).pc == r.threads[t].pc;
    Chain(s, [Run(t, now, true)], s1, [Run(t, now, true)], r);
    OnlyThen(s, s1, r, t, id);
    steps := [Run(t, now, true)] + [Run(t, now, true)];
  }

  /** The paste is there, in time, not to be viewed once, and its password is known or not asked for. */
  predicate Servable(s: State, id: Key, password: Secret, now: int) {
    id in s.content && id in s.meta && CanRead(s.meta[id], password, now) && Lower(s.meta[id].dataPolicy) != "once"
  }

  /** Views of a paste that is not to be viewed once do not wait for each other: from every state in which
      no lock is in use two of them can be in their callbacks at once. */
  lemma ViewsShare(s: State, t: Tid, u: Tid, id: Key, password: Secret, now: int) returns (steps: seq<Step>, r: State)
    requires Ready(s, t, id) && Ready(s, u, id) && t != u && ValidID(id) && Servable(s, id, password, now)
    ensures Leads(s, steps, r) && r.log == s.log
    ensures forall k :: FileAt(r, k) == FileAt(s, k) && MetaAt(r, k) == MetaAt(s, k)
    ensures var pc := Serving(s.meta[id], now, s.content[id].gen, s.content[id].bytes);
      && t in r.threads && r.threads[t] == Thread(View(id, password), First, pc)
      && u in r.threads && r.threads[u] == Thread(View(id, password), First, pc)
  {
    var first, s1 := ReachesCallback(s, t, id, password, now);
    assert FileAt(s1, id) == Some(s.content[id]) && MetaAt(s1, id) == Some(s.meta[id]);
    var second;
    second, r := ReachesCallback(s1, u, id, password, now);
    Chain(s, first, s1, second, r);
    steps := first + second;
  }

  /** The first section of a label update whose token is right. */
  lemma LabelFirst(s: State, t: Tid, call: Call, now: int) returns (steps: seq<Step>, q: State)
    requires call.SetLabel? && Ready(s, t, call.id) && ValidID(call.id) && !call.token.blank && call.id in s.meta
    requires var m := s.meta[call.id];
      && (m.expiresAt.None? || m.expiresAt.value >= now || Lower(m.dataPolicy) == "permanent")
      && m.manageTokenHash != "" && call.token.hash == m.manageTokenHash
    ensures Leads(s, steps, q) && Unlocked(q) && Only(s, q, t, call.id)
    ensures q.threads[t] == Thread(call, Relabel(s.meta[call.id].(title := call.title)), Enter)
    ensures FileAt(q, call.id) == FileAt(s, call.id) && MetaAt(q, call.id) == MetaAt(s, call.id) && q.log == s.log
  {
    var th, start := Thread(call, First, Enter), Start(s, call);
    var s1 := Begins(s, t, call);
    assert SceneOf(s1, t).(pc := Inside) == start;
    var end := Act(th, t, start, now, true);
    TailGets(th, t, end, now, true);
    StepGets(th, t, start, now, true, end);
    var rest;
    rest, q := Section(s1, t, now, true, end);
    Chain(s, [Begin(t, call)], s1, rest, q);
    OnlyThen(s, s1, q, t, call.id);
    steps := [Begin(t, call)] + rest;
  }

  /** Its second section writes the record it carries, whatever is there. */
  lemma LabelSecond(s: State, t: Tid, call: Call, now: int) returns (steps: seq<Step>, r: State)
    requires call.SetLabel? && t in s.threads && s.threads[t].call == call && s.threads[t].pc.Enter?
    requires s.threads[t].stage.Relabel? && s.threads[t].stage.meta.id == call.id
    requires Unlocked(s) && (call.id in s.meta ==> s.meta[call.id].id == call.id)
    ensures Ends(s, steps, r, t, call, true, FileAt(s, call.id), Some(s.threads[t].stage.meta), s.log)
  {
    var th, start := s.threads[t], Start(s, call);
    assert SceneOf(s, t).(pc := Inside) == start;
    var end := TwoGets(th, t, start, now, true);
    steps, r := Section(s, t, now, true, end);
  }

  lemma LabelAlone(s: State, t: Tid, call: Call, now: int) returns (steps: seq<Step>, r: State)
    requires call.SetLabel? && Ready(s, t, call.id) && ValidID(call.id) && !call.token.blank
    ensures var file, m := FileAt(s, call.id), MetaAt(s, call.id);
      if m.None? then Ends(s, steps, r, t, call, false, file, None, s.log)
      else if m.value.expiresAt.Some? && m.value.expiresAt.value < now && Lower(m.value.dataPolicy) != "permanent" then
        Ends(s, steps, r, t, call, false, None, None, s.log)
      else if m.value.manageTokenHash == "" || call.token.hash != m.value.manageTokenHash then
        Ends(s, steps, r, t, call, false, file, m, s.log)
      else Ends(s, steps, r, t, call, true, file, Some(m.value.(title := call.title)), s.log)
  {
    var c := Act(Thread(call, First, Enter), t, Start(s, call), now, true);
    if c.pc.Purge? || c.pc == Leave(Return(false)) {
      var end := TwoGets(Thread(call, First, Enter), t, Start(s, call), now, true);
      steps, r := OneSection(s, t, call, now, true, end);
    } else {
      var first, q := LabelFirst(s, t, call, now);
      var second;
      second, r := LabelSecond(q, t, call, now);
      Chain(s, first, q, second, r);
      OnlyThen(s, q, r, t, call.id);
      steps := first + second;
    }
  }

  // ---- Create ----

  /** The look at the paths before the lock. */
  lemma Reserves(s: State, t: Tid, call: Call) returns (steps: seq<Step>, q: State)
    requires call.Create? && Ready(s, t, call.id) && ValidID(call.id)
    ensures Leads(s, steps, q) && Unlocked(q) && Only(s, q, t, call.id)
    ensures FileAt(q, call.id) == FileAt(s, call.id) && MetaAt(q, call.id) == MetaAt(s, call.id)
    ensures q.births == s.births && q.log == s.log
    ensures var taken := call.id in s.content || (call.custom && call.id in s.meta);
      q.threads[t] == Thread(call, First, if taken then Finished(false) else Enter)
  {
    var s1 := Begins(s, t, call);
    var go := Run(t, 0, true);
    q := FileTick(s1, t, 0, true);
    Chain(s, [Begin(t, call)], s1, [go], q);
    OnlyThen(s, s1, q, t, call.id);
    steps := [Begin(t, call)] + [go];
    if q.threads[t].pc.ReserveMeta? {
      var s2 := q;
      q := FileTick(s2, t, 0, true);
      Chain(s, steps, s2, [go], q);
      OnlyThen(s, s2, q, t, call.id);
      steps := steps + [go];
    }
  }

  lemma FillGets(th: Thread, t: Tid, c: Scene, now: int, ok: bool) returns (end: Scene)
    requires th.call.Create? && c.pc.Inside? && c.file.None?
    ensures Gets(th, t, c, now, ok, end)
    ensures var call, gen := th.call, |c.births|; var births := c.births + [Birth(call.id, call.source)];
      end == if !ok then Scene(Leave(Return(false)), None, c.meta, births, c.log)
             else Scene(Leave(Return(true)), Some(File(gen, call.source, true, t, None)),
                        Some(call.meta.(id := call.id, size := |call.source|)), births, c.log + [Created(call.id, gen)])
  {
    var c1 := Act(th, t, c, now, ok);
    end := TwoGets(th, t, c1, now, ok);
    StepGets(th, t, c, now, ok, end);
  }

  /** A Create publishes the whole body, or leaves the code as free as it was. */
  lemma CreateAlone(s: State, t: Tid, call: Call, now: int, ok: bool) returns (steps: seq<Step>, r: State)
    requires call.Create? && Ready(s, t, call.id) && ValidID(call.id)
    ensures var file, m, gen := FileAt(s, call.id), MetaAt(s, call.id), |s.births|;
      if file.Some? || (call.custom && m.Some?) then Ends(s, steps, r, t, call, false, file, m, s.log)
      else if !ok then Ends(s, steps, r, t, call, false, None, m, s.log)
      else
        && Ends(s, steps, r, t, call, true, Some(File(gen, call.source, true, t, None)),
                Some(call.meta.(id := call.id, size := |call.source|)), s.log + [Created(call.id, gen)])
        && r.births == s.births + [Birth(call.id, call.source)]
  {
    var first, q := Reserves(s, t, call);
    if q.threads[t].pc.Finished? {
      steps, r := first, q;
    } else {
      var start := SceneOf(q, t).(pc := Inside);
      var end := FillGets(q.threads[t], t, start, now, ok);
      var second;
      second, r := Section(q, t, now, ok, end);
      Chain(s, first, q, second, r);
      OnlyThen(s, q, r, t, call.id);
      steps := first + second;
    }
  }

  /** One whose body was copied but whose password, tokens or sidecar could not be made removes the content
      again. */
  lemma UnfinishedCreate(s: State, t: Tid, call: Call, now: int) returns (steps: seq<Step>, r: State)
    requires call.Create? && Ready(s, t, call.id) && ValidID(call.id)
    requires call.id !in s.content && (call.custom ==> call.id !in s.meta)
    ensures Ends(s, steps, r, t, call, false, None, MetaAt(s, call.id), s.log)
  {
    var first, q := Reserves(s, t, call);
    var second, s1 := TakeAlone(q, t, now);
    Chain(s, first, q, second, s1);
    OnlyThread(q, s1, t, call.id);
    OnlyThen(s, q, s1, t, call.id);
    assert FileAt(s1, call.id) == FileAt(q, call.id) && MetaAt(s1, call.id) == MetaAt(q, call.id);
    var third, s2 := Fills(s1, t, now);
    Chain(s, first + second, s1, third, s2);
    OnlyThen(s, s1, s2, t, call.id);
    var fourth, s3 := Aborts(s2, t, now);
    Chain(s, first + second + third, s2, fourth, s3);
    OnlyThen(s, s2, s3, t, call.id);
    var fifth;
    fifth, r := GiveBack(s3, t, now);
    Chain(s, first + second + third + fourth, s3, fifth, r);
    OnlyThread(s3, r, t, call.id);
    OnlyThen(s, s3, r, t, call.id);
    steps := first + second + third + fourth + fifth;
    assert FileAt(r, call.id) == FileAt(s3, call.id) && MetaAt(r, call.id) == MetaAt(s3, call.id);
  }

  /** The exclusive creation and the copy of the body. */
  lemma Fills(s: State, t: Tid, now: int) returns (steps: seq<Step>, r: State)
    requires t in s.threads && s.threads[t].call.Create? && s.threads[t].pc.Inside? && s.threads[t].stage == First
    requires FileAt(s, s.threads[t].call.id).None? && Filed(s.threads[t], SceneOf(s, t))
    ensures Leads(s, steps, r) && r.lk == s.lk && Only(s, r, t, s.threads[t].call.id) && r.log == s.log
    ensures r.threads[t] == s.threads[t].(pc := Publish(|s.births|))
    ensures MetaAt(r, s.threads[t].call.id) == MetaAt(s, s.threads[t].call.id)
  {
    var s1 := FileTick(s, t, now, true);
    assert SceneOf(s1, t).pc == s1.threads[t].pc;
    r := FileTick(s1, t, now, true);
    assert SceneOf(r, t).pc == r.threads[t].pc;
    Chain(s, [Run(t, now, true)], s1, [Run(t, now, true)], r);
    OnlyThen(s, s1, r, t, s.threads[t].call.id);
    steps := [Run(t, now, true)] + [Run(t, now, true)];
  }

  /** What comes after the copy fails, and the content goes. */
  lemma Aborts(s: State, t: Tid, now: int) returns (steps: seq<Step>, r: State)
    requires t in s.threads && s.threads[t].call.Create? && s.threads[t].pc.Publish? && s.threads[t].stage == First
    requires Filed(s.threads[t], SceneOf(s, t))
    ensures Leads(s, steps, r) && r.lk == s.lk && Only(s, r, t, s.threads[t].call.id) && r.log == s.log
    ensures r.threads[t] == s.threads[t].(pc := Leave(Return(false)))
    ensures FileAt(r, s.threads[t].call.id) == None
    ensures MetaAt(r, s.threads[t].call.id) == MetaAt(s, s.threads[t].call.id)
  {
    var end := TwoGets(s.threads[t], t, SceneOf(s, t), now, false);
    steps, r := Works(s, t, now, false, end);
  }

  // ---- Sweeps ----

  /** The files of `k` go in a sweep: in a delete-all, or in a clean-up when they are past their expiry. */
  predicate Goes(call: Call, k: Key, m: Option<Metadata>)
    requires Sweeps(call)
  {
    && k in call.todo && !call.ListPastes?
    && (call.CleanupExpired? ==>
      m.Some? && m.value.expiresAt.Some? && m.value.expiresAt.value < call.cutoff &&
        Lower(m.value.dataPolicy) != "permanent")
  }

  lemma SweepsOne(th: Thread, t: Tid, c: Scene, now: int) returns (end: Scene)
    requires Sweeps(th.call) && th.call.todo != [] && c.pc.Inside?
    ensures Gets(th, t, c, now, true, end) && end.pc == Leave(NextKey) && end.births == c.births && end.log == c.log
    ensures var goes := Goes(th.call, th.call.todo[0], c.meta);
      end.file == (if goes then None else c.file) && end.meta == (if goes then None else c.meta)
  {
    end := TwoGets(th, t, c, now, true);
  }

  lemma GoesSplits(call: Call, k: Key, m: Option<Metadata>)
    requires Sweeps(call) && call.todo != []
    ensures var first := k == call.todo[0] && Goes(call, k, m);
      Goes(call, k, m) <==> first || Goes(Rest(call), k, m)
    ensures Goes(call, k, None) ==> call.AdminDeleteAll?
  {
  }

  /** From one listed id to the next. */
  lemma SweepsNext(s: State, t: Tid, now: int) returns (steps: seq<Step>, r: State)
    requires t in s.threads && Unlocked(s) && Sweeps(s.threads[t].call) && s.threads[t].call.todo != []
    requires s.threads[t] == Thread(s.threads[t].call, First, Enter)
    requires forall k :: k in s.meta ==> s.meta[k].id == k
    ensures var call := s.threads[t].call; var k := call.todo[0];
      && Leads(s, steps, r) && Unlocked(r) && Only(s, r, t, k) && r.log == s.log
      && r.threads[t] == Thread(Rest(call), First, if call.todo[1..] == [] then Finished(true) else Enter)
      && FileAt(r, k) == (if Goes(call, k, MetaAt(s, k)) then None else FileAt(s, k))
      && MetaAt(r, k) == (if Goes(call, k, MetaAt(s, k)) then None else MetaAt(s, k))
  {
    var end := SweepsOne(s.threads[t], t, SceneOf(s, t).(pc := Inside), now);
    steps, r := Section(s, t, now, true, end);
  }

  lemma SweptBoth(s: State, q: State, r: State, t: Tid, call: Call)
    requires Sweeps(call) && call.todo != [] && Only(s, q, t, call.todo[0])
    requires var k := call.todo[0];
      && FileAt(q, k) == (if Goes(call, k, MetaAt(s, k)) then None else FileAt(s, k))
      && MetaAt(q, k) == (if Goes(call, k, MetaAt(s, k)) then None else MetaAt(s, k))
    requires Swept(q, r, Rest(call))
    ensures Swept(s, r, call)
  {
    forall k
      ensures FileAt(r, k) == if Goes(call, k, MetaAt(s, k)) then None else FileAt(s, k)
      ensures MetaAt(r, k) == if Goes(call, k, MetaAt(s, k)) then None else MetaAt(s, k)
    {
      GoesSplits(call, k, MetaAt(s, k));
    }
  }

  /** The files that are to go have gone, the others are as they were. */
  ghost predicate Swept(s: State, r: State, call: Call)
    requires Sweeps(call)
  {
    && (forall k :: FileAt(r, k) == if Goes(call, k, MetaAt(s, k)) then None else FileAt(s, k))
    && (forall k :: MetaAt(r, k) == if Goes(call, k, MetaAt(s, k)) then None else MetaAt(s, k))
  }

  lemma {:induction false} SweepsRest(s: State, t: Tid, call: Call, now: int) returns (steps: seq<Step>, r: State)
    requires Sweeps(call) && Unlocked(s) && t in s.threads
    requires s.threads[t] == Thread(call, First, if call.todo == [] then Finished(true) else Enter)
    requires forall k :: k in s.meta ==> s.meta[k].id == k
    ensures Leads(s, steps, r) && Unlocked(r) && t in r.threads && r.threads == s.threads[t := r.threads[t]]
    ensures r.threads[t].pc == Finished(true) && r.log == s.log && Swept(s, r, call)
    decreases |call.todo|
  {
    if call.todo == [] {
      steps, r := [], s;
    } else {
      var first, s1 := SweepsNext(s, t, now);
      assert forall k :: k in s1.meta ==> MetaAt(s1, k) == Some(s1.meta[k]) && MetaAt(s, k) == Some(s1.meta[k]);
      var second;
      second, r := SweepsRest(s1, t, Rest(call), now);
      Chain(s, first, s1, second, r);
      steps := first + second;
      SweptBoth(s, s1, r, t, call);
    }
  }

  /** A sweep, nobody else about, removes both files of every listed id that is to go, and nothing else. */
  lemma SweepAlone(s: State, t: Tid, call: Call, now: int) returns (steps: seq<Step>, r: State)
    requires Sweeps(call) && Unlocked(s) && (t in s.threads ==> s.threads[t].pc.Finished?)
    requires forall k :: k in s.meta ==> s.meta[k].id == k
    ensures Leads(s, steps, r) && Unlocked(r) && t in r.threads && r.threads == s.threads[t := r.threads[t]]
    ensures r.threads[t].pc == Finished(true) && r.log == s.log && Swept(s, r, call)
  {
    var s1 := Begins(s, t, call);
    assert forall k :: FileAt(s1, k) == FileAt(s, k) && MetaAt(s1, k) == MetaAt(s, k);
    var rest;
    rest, r := SweepsRest(s1, t, call, now);
    Chain(s, [Begin(t, call)], s1, rest, r);
    steps := [Begin(t, call)] + rest;
  }
}
