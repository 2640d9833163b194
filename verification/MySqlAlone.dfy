/** What each call of the MySQL store does when nobody is in its way, told from the one row of its id:
    from every state in which nobody uses the lock of the id, a run of the call ends as the tables
    below say. Conditions are on the columns of the row, as the source's checks are. */
module MySqlAlone {
  import opened Common
  import opened Pastes
  import opened PasteHistory
  import opened MySqlStore
  import opened MySqlOnce
  import opened MySqlRuns
  import L = LockProtocol

  /** Thread `t` may begin a call on `id`, and nobody is about the lock of that id. */
  ghost predicate Ready(s: State, t: Tid, id: Id) {
    L.Inv(s.lk) && L.PhaseOf(s.lk, t).Idle? && L.Free(s.lk, id) && (t in s.threads ==> s.threads[t].pc.Finished?)
  }

  /** The call has ended and reported `ok`. It left this row and this log; no other thread, no other row
      is touched, and its lock is free again. */
  ghost predicate Ends(s: State, steps: seq<Step>, r: State, t: Tid, call: Call, ok: bool, row: Option<Row>,
                       log: seq<Event>)
    requires !Lockless(call)
  {
    && Leads(s, steps, r, iset{call.id}) && Only(s, r, t, KeyOf(call.id))
    && r.threads[t].call == call && r.threads[t].pc == Finished(ok)
    && RowAt(r, KeyOf(call.id)) == row && r.log == log
    && L.Inv(r.lk) && L.SamePhases(s.lk, r.lk, t) && L.PhaseOf(r.lk, t).Idle?
  }

  function Start(s: State, call: Call): Scene {
    Scene(Inside, RowAt(s, KeyOf(Target(call))), s.births, s.log)
  }

  lemma OneSection(s: State, t: Tid, call: Call, now: int, ok: bool, end: Scene) returns (steps: seq<Step>, r: State)
    requires !Lockless(call) && Ready(s, t, call.id) && Accepted(call)
    requires Gets(Thread(call, false, Enter), Start(s, call), now, ok, end) && end.pc.after.Return?
    ensures Ends(s, steps, r, t, call, end.pc.after.ok, end.row, end.log) && r.births == end.births
  {
    var s1 := Begins(s, t, call, iset{call.id});
    assert SceneOf(s1, t).(pc := Inside) == Start(s, call);
    var rest;
    rest, r := Section(s1, t, now, ok, end, iset{call.id});
    Chain(s, [Begin(t, call)], s1, rest, r, iset{call.id});
    OnlyThen(s, s1, r, t, KeyOf(call.id));
    steps := [Begin(t, call)] + rest;
  }

  // ---- Calls of one section ----

  /** An id that is not one, or a blank token, ends the call before it has touched anything. */
  lemma RejectedAlone(s: State, t: Tid, call: Call) returns (steps: seq<Step>, r: State)
    requires !Lockless(call) && Ready(s, t, call.id)
    requires !ValidID(call.id) ||
      (!call.Create? && !call.Open? && !call.View? && !call.AdminDelete? && call.token.blank)
    ensures Ends(s, steps, r, t, call, false, RowAt(s, KeyOf(call.id)), s.log)
  {
    r := Begins(s, t, call, iset{call.id});
    steps := [Begin(t, call)];
  }

  /** A Create puts a row with the whole body and the record it was given, or nothing. */
  lemma CreateAlone(s: State, t: Tid, call: Call, now: int, ok: bool) returns (steps: seq<Step>, r: State)
    requires call.Create? && Ready(s, t, call.id) && ValidID(call.id)
    ensures var k := KeyOf(call.id); var row := RowAt(s, k);
      if row.Some? || !ok then Ends(s, steps, r, t, call, false, row, s.log)
      else
        && Ends(s, steps, r, t, call, true, RowAt(r, k), s.log) && RowAt(r, k).Some?
        && RowAt(r, k).value.gen == |s.births| && RowAt(r, k).value.body == call.source
        && IsStored(RowAt(r, k).value.meta, call.meta.(id := call.id, size := |call.source|))
        && r.births == s.births + [Birth(call.id, call.source)]
  {
    ReadBackKeeps(call.meta.(id := call.id, size := |call.source|));
    var end := TwoGets(Thread(call, false, Enter), Start(s, call), now, ok);
    steps, r := OneSection(s, t, call, now, ok, end);
  }

  lemma OpenAlone(s: State, t: Tid, id: Id, password: Secret, now: int) returns (steps: seq<Step>, r: State)
    requires Ready(s, t, id) && ValidID(id)
    ensures var call, row := Open(id, password), RowAt(s, KeyOf(id));
      if row.None? then Ends(s, steps, r, t, call, false, None, s.log)
      else
        var m := row.value.meta;
        if m.expiresAt.Some? && m.expiresAt.value < now && Lower(m.dataPolicy) != "permanent" then
          Ends(s, steps, r, t, call, false, None, s.log)
        else if m.passwordHash != "" && (password.blank || password.hash != m.passwordHash) then
          Ends(s, steps, r, t, call, false, row, s.log)
        else Ends(s, steps, r, t, call, true, row, s.log + [Opened(id, row.value.gen)])
  {
    var call := Open(id, password);
    var end := TwoGets(Thread(call, false, Enter), Start(s, call), now, true);
    steps, r := OneSection(s, t, call, now, true, end);
  }

  lemma DeleteAlone(s: State, t: Tid, id: Id, token: Secret, now: int) returns (steps: seq<Step>, r: State)
    requires Ready(s, t, id) && ValidID(id) && !token.blank
    ensures var call, row := Delete(id, token), RowAt(s, KeyOf(id));
      if row.Some? && row.value.meta.deleteTokenHash != "" && token.hash == row.value.meta.deleteTokenHash then
        Ends(s, steps, r, t, call, true, None, s.log)
      else Ends(s, steps, r, t, call, false, row, s.log)
  {
    var end := TwoGets(Thread(Delete(id, token), false, Enter), Start(s, Delete(id, token)), now, true);
    steps, r := OneSection(s, t, Delete(id, token), now, true, end);
  }

  lemma AdminDeleteAlone(s: State, t: Tid, id: Id, now: int) returns (steps: seq<Step>, r: State)
    requires Ready(s, t, id) && ValidID(id)
    ensures Ends(s, steps, r, t, AdminDelete(id), KeyOf(id) in s.rows, None, s.log)
  {
    var end := TwoGets(Thread(AdminDelete(id), false, Enter), Start(s, AdminDelete(id)), now, true);
    steps, r := OneSection(s, t, AdminDelete(id), now, true, end);
  }

  lemma ManagedAlone(s: State, t: Tid, call: Call, now: int) returns (steps: seq<Step>, r: State)
    requires call.DeleteManaged? || call.ManageMetadata?
    requires Ready(s, t, call.id) && ValidID(call.id) && !call.token.blank
    ensures var row := RowAt(s, KeyOf(call.id));
      if row.None? then Ends(s, steps, r, t, call, false, None, s.log)
      else
        var m := row.value.meta;
        if m.expiresAt.Some? && m.expiresAt.value < now && Lower(m.dataPolicy) != "permanent" then
          Ends(s, steps, r, t, call, false, None, s.log)
        else if m.manageTokenHash == "" || call.token.hash != m.manageTokenHash then
          Ends(s, steps, r, t, call, false, row, s.log)
        else Ends(s, steps, r, t, call, true, if call.DeleteManaged? then None else row, s.log)
  {
    var end := TwoGets(Thread(call, false, Enter), Start(s, call), now, true);
    steps, r := OneSection(s, t, call, now, true, end);
  }

  lemma PasswordAlone(s: State, t: Tid, call: Call, now: int) returns (steps: seq<Step>, r: State)
    requires call.SetPassword? || call.ClearPassword?
    requires Ready(s, t, call.id) && ValidID(call.id) && !call.token.blank
    ensures var row := RowAt(s, KeyOf(call.id));
      if row.None? then Ends(s, steps, r, t, call, false, None, s.log)
      else
        var m := row.value.meta;
        if m.expiresAt.Some? && m.expiresAt.value < now && Lower(m.dataPolicy) != "permanent" then
          Ends(s, steps, r, t, call, false, None, s.log)
        else if m.manageTokenHash == "" || call.token.hash != m.manageTokenHash then
          Ends(s, steps, r, t, call, false, row, s.log)
        else if call.SetPassword? then
          if m.passwordHash != "" then Ends(s, steps, r, t, call, false, row, s.log)
          else Ends(s, steps, r, t, call, true, Some(row.value.(meta := m.(passwordHash := call.hash))), s.log)
        else if m.passwordHash != "" && (call.password.blank || call.password.hash != m.passwordHash) then
          Ends(s, steps, r, t, call, false, row, s.log)
        else Ends(s, steps, r, t, call, true, Some(row.value.(meta := m.(passwordHash := ""))), s.log)
  {
    var end := TwoGets(Thread(call, false, Enter), Start(s, call), now, true);
    steps, r := OneSection(s, t, call, now, true, end);
  }

  lemma PolicyAlone(s: State, t: Tid, call: Call, now: int) returns (steps: seq<Step>, r: State)
    requires call.SetDataPolicy? && Ready(s, t, call.id) && ValidID(call.id) && !call.token.blank
    ensures var row := RowAt(s, KeyOf(call.id));
      if row.None? then Ends(s, steps, r, t, call, false, None, s.log)
      else
        var m := row.value.meta;
        if m.expiresAt.Some? && m.expiresAt.value < now && Lower(m.dataPolicy) != "permanent" then
          Ends(s, steps, r, t, call, false, None, s.log)
        else if m.manageTokenHash == "" || call.token.hash != m.manageTokenHash then
          Ends(s, steps, r, t, call, false, row, s.log)
        else
          var stored := if call.expiresAt.None? || 0 <= call.expiresAt.value < 1_000_000_000 then None
                        else Some(call.expiresAt.value / 1_000_000_000 * 1_000_000_000);
          Ends(s, steps, r, t, call, true,
               Some(row.value.(meta := m.(dataPolicy := call.policy, expiresAt := stored))), s.log)
  {
    var end := TwoGets(Thread(call, false, Enter), Start(s, call), now, true);
    steps, r := OneSection(s, t, call, now, true, end);
  }

  // ---- Two sections ----

  /** A View up to the section in which it is served or refused. */
  lemma ReachesStage(s: State, t: Tid, id: Id, password: Secret, now: int, ok: bool)
    returns (steps: seq<Step>, q: State)
    requires Ready(s, t, id) && ValidID(id)
    ensures Leads(s, steps, q, iset{id}) && Only(s, q, t, KeyOf(id))
    ensures L.Inv(q.lk) && L.SamePhases(s.lk, q.lk, t) && L.PhaseOf(q.lk, t).Idle?
    ensures var call := View(id, password);
      && q.threads[t] == Thread(call, Act(Thread(call, false, Enter), Start(s, call), now, ok).pc == Leave(Upgrade),
        Enter)
      && SceneOf(q, t).(pc := Inside) == Start(s, call)
  {
    var call := View(id, password);
    var th, start := Thread(call, false, Enter), Start(s, call);
    q := Begins(s, t, call, iset{id});
    steps := [Begin(t, call)];
    var end := Act(th, start, now, ok);
    if end.pc == Leave(Upgrade) {
      EndGets(th, end, now, ok);
      OnGets(th, start, now, ok, end);
      var s1 := q;
      assert SceneOf(s1, t).(pc := Inside) == start;
      var rest;
      rest, q := Section(s1, t, now, ok, end, iset{id});
      Chain(s, steps, s1, rest, q, iset{id});
      OnlyThen(s, s1, q, t, KeyOf(id));
      steps := steps + rest;
    }
  }

  /** A View past its checks, its row still there. */
  lemma ServedGets(th: Thread, c: Scene, now: int, ok: bool) returns (end: Scene)
    requires th.call.View? && c.pc.Opening? && c.row.Some?
    ensures Gets(th, c, now, ok, end)
    ensures var k, once := th.call.id, Lower(c.pc.meta.dataPolicy) == "once";
      if !ok then end == c.(pc := Leave(Return(false)))
      else
        var log := c.log + [Viewed(k, c.pc.gen, once, c.row.value.body)];
        end == Scene(Leave(Return(true)), if once then None else c.row, c.births, log)
  {
    var c1 := Act(th, c, now, ok);
    end := TwoGets(th, c1, now, ok);
    OnGets(th, c, now, ok, end);
  }

  /** A View whose paste is there, in time and with the right password is served: the callback gets the
      body of the row, and a paste to be viewed once is gone when the callback succeeds. */
  lemma ViewAlone(s: State, t: Tid, id: Id, password: Secret, now: int, ok: bool)
    returns (steps: seq<Step>, r: State)
    requires Ready(s, t, id) && ValidID(id)
    ensures var call, row := View(id, password), RowAt(s, KeyOf(id));
      if row.None? then Ends(s, steps, r, t, call, false, None, s.log)
      else
        var m := row.value.meta;
        if m.expiresAt.Some? && m.expiresAt.value < now && Lower(m.dataPolicy) != "permanent" then
          Ends(s, steps, r, t, call, false, None, s.log)
        else if m.passwordHash != "" && (password.blank || password.hash != m.passwordHash) then
          Ends(s, steps, r, t, call, false, row, s.log)
        else if !ok then Ends(s, steps, r, t, call, false, row, s.log)
        else if Lower(m.dataPolicy) == "once" then
          Ends(s, steps, r, t, call, true, None, s.log + [Viewed(id, row.value.gen, true, row.value.body)])
        else Ends(s, steps, r, t, call, true, row, s.log + [Viewed(id, row.value.gen, false, row.value.body)])
  {
    var call := View(id, password);
    var first, q := ReachesStage(s, t, id, password, now, ok);
    var th, start := q.threads[t], Start(s, call);
    var c := On(th, start, now, ok);
    var end;
    if c.pc.Opening? {
      end := ServedGets(th, c, now, ok);
    } else {
      end := On(th, c, now, ok);
      EndGets(th, end, now, ok);
      OnGets(th, c, now, ok, end);
    }
    OnGets(th, start, now, ok, end);
    var second;
    second, r := Section(q, t, now, ok, end, iset{id});
    Chain(s, first, q, second, r, iset{id});
    OnlyThen(s, q, r, t, KeyOf(id));
    steps := first + second;
  }

  /** A View into its callback, while others may be in theirs. */
  lemma ReachesCallback(s: State, t: Tid, id: Id, password: Secret, now: int) returns (steps: seq<Step>, r: State)
    requires L.Inv(s.lk) && L.PhaseOf(s.lk, t).Idle? && (t in s.threads ==> s.threads[t].pc.Finished?) && ValidID(id)
    requires forall u :: L.PhaseOf(s.lk, u).Holding? && L.PhaseOf(s.lk, u).key == id ==>
      L.PhaseOf(s.lk, u).mode == L.Shared
    requires Servable(RowAt(s, KeyOf(id)), password, now)
    ensures Leads(s, steps, r, iset{id}) && L.Inv(r.lk) && L.SamePhases(s.lk, r.lk, t) && Only(s, r, t, KeyOf(id))
    ensures L.PhaseOf(r.lk, t).Holding? && L.PhaseOf(r.lk, t).mode == L.Shared
    ensures var row := s.rows[KeyOf(id)];
      && r.threads[t] == Thread(View(id, password), false, Serving(row.meta, row.gen, row.body))
      && RowAt(r, KeyOf(id)) == Some(row) && r.log == s.log
  {
    var call := View(id, password);
    var s1 := Begins(s, t, call, iset{id});
    var second, s2 := Take(s1, t, iset{id});
    Chain(s, [Begin(t, call)], s1, second, s2, iset{id});
    var third;
    third, r := IntoCallback(s2, t, id, password, now);
    Chain(s, [Begin(t, call)] + second, s2, third, r, iset{id});
    steps := [Begin(t, call)] + second + third;
  }

  /** Its two statements from the lock to the callback. */
  lemma IntoCallback(s: State, t: Tid, id: Id, password: Secret, now: int) returns (steps: seq<Step>, r: State)
    requires t in s.threads && s.threads[t] == Thread(View(id, password), false, Inside)
    requires Servable(RowAt(s, KeyOf(id)), password, now)
    ensures Leads(s, steps, r, iset{id}) && r.lk == s.lk && Only(s, r, t, KeyOf(id))
    ensures var row := s.rows[KeyOf(id)];
      && r.threads[t] == Thread(View(id, password), false, Serving(row.meta, row.gen, row.body))
      && RowAt(r, KeyOf(id)) == Some(row) && r.log == s.log
  {
    var s1 := SqlTick(s, t, now, true, iset{id});
    assert SceneOf(s1, t).pc == s1.threads[t].pc;
    r := SqlTick(s1, t, now, true, iset{id});
    assert SceneOf(r, t).pc == r.threads[t].pc;
    Chain(s, [Run(t, now, true)], s1, [Run(t, now, true)], r, iset{id});
    OnlyThen(s, s1, r, t, KeyOf(id));
    steps := [Run(t, now, true)] + [Run(t, now, true)];
  }

  /** The row is there, in time, not to be viewed once, and its password is known or not asked for. */
  predicate Servable(row: Option<Row>, password: Secret, now: int) {
    && row.Some?
    && var m := row.value.meta;
    && (m.expiresAt.None? || now <= m.expiresAt.value || Lower(m.dataPolicy) == "permanent")
    && (m.passwordHash == "" || (!password.blank && password.hash == m.passwordHash))
    && Lower(m.dataPolicy) != "once"
  }

  /** Views of a paste that is not to be viewed once do not wait for each other: two of them can be in their
      callbacks at once. */
  lemma ViewsShare(s: State, t: Tid, u: Tid, id: Id, password: Secret, now: int) returns (steps: seq<Step>, r: State)
    requires Ready(s, t, id) && Ready(s, u, id) && t != u && ValidID(id)
    requires Servable(RowAt(s, KeyOf(id)), password, now)
    ensures Leads(s, steps, r, iset{id}) && r.log == s.log && forall k :: RowAt(r, k) == RowAt(s, k)
    ensures var row := s.rows[KeyOf(id)]; var th :=
      Thread(View(id, password), false, Serving(row.meta, row.gen, row.body));
      t in r.threads && r.threads[t] == th && u in r.threads && r.threads[u] == th
  {
    var first, s1 := ReachesCallback(s, t, id, password, now);
    var second;
    second, r := ReachesCallback(s1, u, id, password, now);
    Chain(s, first, s1, second, r, iset{id});
    steps := first + second;
  }

  lemma LabelWrites(s: State, t: Tid, call: Call, now: int, end: Scene) returns (steps: seq<Step>, r: State)
    requires call.SetLabel? && Ready(s, t, call.id) && ValidID(call.id) && !call.token.blank
    requires Gets(Thread(call, false, Enter), Start(s, call), now, true, end)
    requires end.pc == Leave(Relabel) && end.row == RowAt(s, KeyOf(call.id)) && end.row.Some? && end.log == s.log
    ensures var row := end.row.value;
      Ends(s, steps, r, t, call, true, Some(row.(meta := row.meta.(title := call.title))), s.log)
  {
    var s1 := Begins(s, t, call, iset{call.id});
    assert SceneOf(s1, t).(pc := Inside) == Start(s, call);
    var second, s2 := Section(s1, t, now, true, end, iset{call.id});
    Chain(s, [Begin(t, call)], s1, second, s2, iset{call.id});
    OnlyThen(s, s1, s2, t, KeyOf(call.id));
    r := SqlTick(s2, t, now, true, iset{call.id});
    Chain(s, [Begin(t, call)] + second, s2, [Run(t, now, true)], r, iset{call.id});
    OnlyThen(s, s2, r, t, KeyOf(call.id));
    steps := [Begin(t, call)] + second + [Run(t, now, true)];
  }

  /** A label update: its checks under the lock, and then one statement without. */
  lemma LabelAlone(s: State, t: Tid, call: Call, now: int) returns (steps: seq<Step>, r: State)
    requires call.SetLabel? && Ready(s, t, call.id) && ValidID(call.id) && !call.token.blank
    ensures var row := RowAt(s, KeyOf(call.id));
      if row.None? then Ends(s, steps, r, t, call, false, None, s.log)
      else
        var m := row.value.meta;
        if m.expiresAt.Some? && m.expiresAt.value < now && Lower(m.dataPolicy) != "permanent" then
          Ends(s, steps, r, t, call, false, None, s.log)
        else if m.manageTokenHash == "" || call.token.hash != m.manageTokenHash then
          Ends(s, steps, r, t, call, false, row, s.log)
        else Ends(s, steps, r, t, call, true, Some(row.value.(meta := m.(title := call.title))), s.log)
  {
    var end := TwoGets(Thread(call, false, Enter), Start(s, call), now, true);
    if end.pc == Leave(Relabel) {
      steps, r := LabelWrites(s, t, call, now, end);
    } else {
      steps, r := OneSection(s, t, call, now, true, end);
    }
  }

  // ---- Sweeps ----

  /** Clean-up removes a row when its expiry, in whole seconds, is before now, and else keeps it. */
  predicate CleanedUp(row: Row, after: Option<Row>, now: int) {
    var expiry := row.meta.expiresAt;
    after == if expiry.Some? && expiry.value / 1_000_000_000 < now / 1_000_000_000 then None else Some(row)
  }

  /** Delete-all empties the table; clean-up removes exactly the rows whose expiry, in whole seconds, is
      before now. Neither waits for anybody. */
  lemma SweepAlone(s: State, t: Tid, call: Call, now: int) returns (steps: seq<Step>, r: State)
    requires Lockless(call) && (t in s.threads ==> s.threads[t].pc.Finished?)
    ensures Leads(s, steps, r, iset{}) && r.lk == s.lk && r.log == s.log
    ensures r.threads == s.threads[t := Thread(call, false, Finished(true))]
    ensures call.AdminDeleteAll? ==> r.rows == map[]
    ensures call.CleanupExpired? ==> r.rows.Keys <= s.rows.Keys
    ensures call.CleanupExpired? ==> forall k :: k in s.rows ==> CleanedUp(s.rows[k], RowAt(r, k), now)
  {
    var s1 := Begins(s, t, call, iset{});
    One(s1, Run(t, now, true), iset{});
    r := Next(s1, Run(t, now, true));
    Chain(s, [Begin(t, call)], s1, [Run(t, now, true)], r, iset{});
    steps := [Begin(t, call)] + [Run(t, now, true)];
  }
}
