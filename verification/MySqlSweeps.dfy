/** What the lockless statements of the MySQL store can do to a View: delete-all between the query for
    the row and the query for its content leaves the View with nothing to serve, and it succeeds. */
module MySqlSweeps {
  import opened Common
  import opened Pastes
  import opened PasteHistory
  import opened MySqlStore
  import opened MySqlOnce
  import opened MySqlRuns
  import V = MySqlCaseVariants
  import L = LockProtocol

  /** A paste anyone may view any number of times. */
  predicate Public(row: Row) {
    !IsOnce(row.meta) && row.meta.passwordHash == "" && row.meta.expiresAt.None?
  }

  lemma SweepAll(s: State, t: Tid, ids: iset<Id>) returns (steps: seq<Step>, r: State)
    requires t !in s.threads
    ensures Leads(s, steps, r, ids)
    ensures r == s.(rows := map[], threads := s.threads[t := Thread(AdminDeleteAll, false, Finished(true))])
  {
    var begin, go := Begin(t, AdminDeleteAll), Run(t, 0, true);
    One(s, begin, ids);
    var s1 := Next(s, begin);
    One(s1, go, ids);
    r := Next(s1, go);
    Chain(s, [begin], s1, [go], r, ids);
    steps := [begin] + [go];
    assert r.threads == s.threads[t := Thread(AdminDeleteAll, false, Finished(true))];
    assert r.rows == map[];
  }

  /** The content query finds nothing, the callback is given nothing, and the View returns success. */
  lemma ServeNothing(s: State, t: Tid, id: Id, m: Metadata, g: nat, ids: iset<Id>) returns (steps: seq<Step>, r: State)
    requires t in s.threads && s.threads[t] == Thread(V.AnyView(id), false, Opening(m, g)) && !IsOnce(m)
    requires L.Inv(s.lk) && L.PhaseOf(s.lk, t).Holding? && KeyOf(id) !in s.rows
    ensures Leads(s, steps, r, ids)
    ensures r == s.(lk := r.lk, log := s.log + [Viewed(id, g, false, [])],
                    threads := s.threads[t := Thread(V.AnyView(id), false, Finished(true))])
  {
    var go := Tick(t);
    Statement(s, t, ids);
    var s1 := RunSql(s, t, 0, true);
    assert s1.threads == s.threads[t := Thread(V.AnyView(id), false, Serving(m, g, []))];
    Statement(s1, t, ids);
    var s2 := RunSql(s1, t, 0, true);
    assert s2.threads == s.threads[t := Thread(V.AnyView(id), false, Leave(Return(true)))];
    Chain(s, [go], s1, [go], s2, ids);
    var rest;
    rest, r := GiveBack(s2, t, ids);
    Chain(s, [go] + [go], s2, rest, r, ids);
    steps := [go] + [go] + rest;
    assert r.threads == s.threads[t := Thread(V.AnyView(id), false, Finished(true))];
  }

  /** From every table at rest with a public paste there is a run in which a View of it reports success
      having served nothing. */
  lemma EmptyView(s: State, id: Id, ids: iset<Id>) returns (steps: seq<Step>, r: State)
    requires AtRest(s) && ValidID(id) && id in ids && KeyOf(id) in s.rows && Public(s.rows[KeyOf(id)])
    ensures Leads(s, steps, r, ids)
    ensures r.log == [Viewed(id, s.rows[KeyOf(id)].gen, false, [])]
    ensures 0 in r.threads && r.threads[0] == Thread(V.AnyView(id), false, Finished(true))
  {
    L.InitInv();
    var row := s.rows[KeyOf(id)];
    var first, s1 := Decided(s, 0, V.AnyView(id), ids, Go(Opening(row.meta, row.gen)));
    var second, s2 := SweepAll(s1, 1, ids);
    Chain(s, first, s1, second, s2, ids);
    var third;
    third, r := ServeNothing(s2, 0, id, row.meta, row.gen, ids);
    Chain(s, first + second, s2, third, r, ids);
    steps := first + second + third;
  }

  /** What the holder of a lock does next when its row has been swept: a deletion and the consumption of a
      one-time paste report failure; a change of columns reports success, and has changed nothing. */
  lemma GoneMeanwhile(s: State, t: Tid, now: int, ok: bool)
    requires Enabled(s, Run(t, now, ok)) && !Lockless(s.threads[t].call)
    requires KeyOf(Target(s.threads[t].call)) !in s.rows
    ensures var pc, s' := s.threads[t].pc, Next(s, Run(t, now, ok)); var pc' := s'.threads[t].pc;
      && (pc.DropRow? || pc.Consume? ==> pc' == Leave(Return(false)) && s'.rows == s.rows && s'.log == s.log)
      && (pc.Update? ==> pc' == Leave(Return(true)) && s'.rows == s.rows && s'.log == s.log)
      && (pc.Unlocked? ==> pc' == Finished(true) && s'.rows == s.rows && s'.log == s.log)
  {
    if s.threads[t].pc.DropRow? {
      assert s.rows - {KeyOf(Target(s.threads[t].call))} == s.rows;
    }
  }

  /** An unprotected paste in time, and its manager asks for a password. */
  predicate MayProtect(call: Call, row: Row) {
    && call.SetPassword? && ValidID(call.id) && !call.token.blank
    && row.meta.expiresAt.None? && row.meta.passwordHash == ""
    && row.meta.manageTokenHash != "" && call.token.hash == row.meta.manageTokenHash
  }

  /** From every table at rest with such a paste there is a run in which the change of password reports
      success on a paste that is gone. */
  lemma EditOfNothing(s: State, call: Call, ids: iset<Id>) returns (steps: seq<Step>, r: State)
    requires AtRest(s) && KeyOf(Target(call)) in s.rows && MayProtect(call, s.rows[KeyOf(Target(call))])
    requires call.id in ids
    ensures Leads(s, steps, r, ids)
    ensures r.rows == map[] && 0 in r.threads && r.threads[0] == Thread(call, false, Finished(true))
  {
    L.InitInv();
    var first, s1 := Decided(s, 0, call, ids, Go(Update));
    var second, s2 := SweepAll(s1, 1, ids);
    Chain(s, first, s1, second, s2, ids);
    Statement(s2, 0, ids);
    var s3 := RunSql(s2, 0, 0, true);
    GoneMeanwhile(s2, 0, 0, true);
    Chain(s, first + second, s2, [Tick(0)], s3, ids);
    var third;
    third, r := GiveBack(s3, 0, ids);
    Chain(s, first + second + [Tick(0)], s3, third, r, ids);
    steps := first + second + [Tick(0)] + third;
  }
}
