/** Why `MySqlOnce` asks for ids that differ by more than case: two such ids name one row but two
    locks. For each property proved there this module builds a run that breaks it under two
    spellings of one id, so each holds of all runs if and only if the ids in use are distinct
    without regard to case. */
module MySqlCaseVariants {
  import opened Common
  import opened Pastes
  import opened PasteHistory
  import opened MySqlStore
  import opened MySqlOnce
  import opened MySqlRuns
  import L = LockProtocol

  // ---- A View of a one-time paste ----

  /** A paste anyone may view once. */
  predicate Viewable(row: Row) {
    IsOnce(row.meta) && row.meta.passwordHash == "" && row.meta.expiresAt.None?
  }

  function AnyView(id: Id): Call {
    View(id, Secret(true, ""))
  }

  /** Whenever the lock of an id is free, a View of a one-time paste can reach its upgrade... */
  lemma ReachUpgrade(s: State, t: Tid, id: Id, ids: iset<Id>) returns (steps: seq<Step>, r: State)
    requires t !in s.threads && L.Inv(s.lk) && L.PhaseOf(s.lk, t).Idle? && L.Free(s.lk, id) && ValidID(id) && id in ids
    requires KeyOf(id) in s.rows && Viewable(s.rows[KeyOf(id)])
    ensures Leads(s, steps, r, ids) && L.Inv(r.lk) && L.SamePhases(s.lk, r.lk, t) && L.PhaseOf(r.lk, t).Idle?
    ensures r == s.(lk := r.lk, threads := s.threads[t := Thread(AnyView(id), true, Enter)])
  {
    var first, s1 := Decided(s, t, AnyView(id), ids, Go(Leave(Upgrade)));
    var second;
    second, r := GiveBack(s1, t, ids);
    Chain(s, first, s1, second, r, ids);
    steps := first + second;
    assert r.threads == s.threads[t := Thread(AnyView(id), true, Enter)];
  }

  /** ... and from its upgrade can run into its callback. */
  lemma ReachServing(s: State, t: Tid, id: Id, ids: iset<Id>) returns (steps: seq<Step>, r: State)
    requires t in s.threads && s.threads[t] == Thread(AnyView(id), true, Enter)
    requires L.Inv(s.lk) && L.PhaseOf(s.lk, t).Idle? && L.Free(s.lk, id)
    requires KeyOf(id) in s.rows && Viewable(s.rows[KeyOf(id)])
    ensures Leads(s, steps, r, ids) && L.Inv(r.lk) && L.SamePhases(s.lk, r.lk, t)
    ensures L.PhaseOf(r.lk, t).Holding? && L.PhaseOf(r.lk, t).key == id
    ensures var row := s.rows[KeyOf(id)];
      r == s.(lk := r.lk, threads := s.threads[t := Thread(AnyView(id), true, Serving(row.meta, row.gen, row.body))])
  {
    var row := s.rows[KeyOf(id)];
    var first, s1 := Take(s, t, ids);
    Statement(s1, t, ids);
    var s2 := RunSql(s1, t, 0, true);
    assert s2.threads == s.threads[t := Thread(AnyView(id), true, Opening(row.meta, row.gen))];
    Chain(s, first, s1, [Tick(t)], s2, ids);
    Statement(s2, t, ids);
    r := RunSql(s2, t, 0, true);
    Chain(s, first + [Tick(t)], s2, [Tick(t)], r, ids);
    steps := first + [Tick(t)] + [Tick(t)];
    assert r.threads == s.threads[t := Thread(AnyView(id), true, Serving(row.meta, row.gen, row.body))];
  }

  lemma ReachCallback(s: State, t: Tid, id: Id, ids: iset<Id>) returns (steps: seq<Step>, r: State)
    requires t !in s.threads && L.Inv(s.lk) && L.PhaseOf(s.lk, t).Idle? && L.Free(s.lk, id) && ValidID(id) && id in ids
    requires KeyOf(id) in s.rows && Viewable(s.rows[KeyOf(id)])
    ensures Leads(s, steps, r, ids) && L.Inv(r.lk) && L.SamePhases(s.lk, r.lk, t)
    ensures L.PhaseOf(r.lk, t).Holding? && L.PhaseOf(r.lk, t).key == id
    ensures var row := s.rows[KeyOf(id)];
      r == s.(lk := r.lk, threads := s.threads[t := Thread(AnyView(id), true, Serving(row.meta, row.gen, row.body))])
  {
    var first, s1 := ReachUpgrade(s, t, id, ids);
    var second;
    second, r := ReachServing(s1, t, id, ids);
    Chain(s, first, s1, second, r, ids);
    steps := first + second;
  }

  /** The callback succeeds and the row is deleted, whatever row is there by now. */
  lemma ReachConsume(s: State, t: Tid, ids: iset<Id>) returns (r: State)
    requires t in s.threads && s.threads[t].pc.Serving? && IsOnce(s.threads[t].pc.meta) && s.threads[t].call.View?
    ensures Leads(s, [Tick(t)], r, ids)
    ensures r == s.(threads := s.threads[t := s.threads[t].(pc := Consume(s.threads[t].pc.gen, s.threads[t].pc.body))])
  {
    Statement(s, t, ids);
    r := RunSql(s, t, 0, true);
  }

  lemma DoConsume(s: State, t: Tid, ids: iset<Id>) returns (r: State)
    requires t in s.threads && s.threads[t].pc.Consume? && s.threads[t].call.View? &&
      KeyOf(s.threads[t].call.id) in s.rows
    ensures Leads(s, [Tick(t)], r, ids)
    ensures var id, pc := s.threads[t].call.id, s.threads[t].pc;
      r == s.(threads := s.threads[t := s.threads[t].(pc := Leave(Return(true)))], rows := s.rows - {KeyOf(id)},
              log := s.log + [Viewed(id, pc.gen, true, pc.body)])
  {
    Statement(s, t, ids);
    r := RunSql(s, t, 0, true);
  }

  /** From its callback a one-time View runs to its end. */
  lemma FinishView(s: State, t: Tid, ids: iset<Id>) returns (steps: seq<Step>, r: State)
    requires t in s.threads && s.threads[t].pc.Serving? && IsOnce(s.threads[t].pc.meta) && s.threads[t].call.View?
    requires L.Inv(s.lk) && L.PhaseOf(s.lk, t).Holding? && KeyOf(s.threads[t].call.id) in s.rows
    ensures Leads(s, steps, r, ids) && L.Inv(r.lk) && L.SamePhases(s.lk, r.lk, t) && L.PhaseOf(r.lk, t).Idle?
    ensures var id, pc := s.threads[t].call.id, s.threads[t].pc;
      r == s.(lk := r.lk, threads := s.threads[t := s.threads[t].(pc := Finished(true))], rows := s.rows - {KeyOf(id)},
              log := s.log + [Viewed(id, pc.gen, true, pc.body)])
  {
    var s1 := ReachConsume(s, t, ids);
    var s2 := DoConsume(s1, t, ids);
    Chain(s, [Tick(t)], s1, [Tick(t)], s2, ids);
    var rest;
    rest, r := GiveBack(s2, t, ids);
    Chain(s, [Tick(t)] + [Tick(t)], s2, rest, r, ids);
    steps := [Tick(t)] + [Tick(t)] + rest;
    assert r.threads == s.threads[t := s.threads[t].(pc := Finished(true))];
  }

  /** A Create runs from beginning to end. */
  lemma DoCreate(s: State, t: Tid, call: Call, ids: iset<Id>) returns (steps: seq<Step>, r: State)
    requires t !in s.threads && L.Inv(s.lk) && L.PhaseOf(s.lk, t).Idle? && L.Free(s.lk, Target(call))
    requires call.Create? && ValidID(call.id) && call.id in ids && KeyOf(call.id) !in s.rows
    ensures Leads(s, steps, r, ids) && L.Inv(r.lk) && L.SamePhases(s.lk, r.lk, t) && L.PhaseOf(r.lk, t).Idle?
    ensures r.threads == s.threads[t := Thread(call, false, Finished(true))] && r.log == s.log
    ensures r.loose == s.loose || r.loose == s.loose + {|s.births|}
    ensures r.rows == s.rows[KeyOf(call.id) :=
      Row(|s.births|, ReadBack(call.meta.(id := call.id, size := |call.source|)), call.source)]
  {
    var e := EffectOf(Thread(call, false, Inside), None, |s.births|, 0, true);
    var first, s1 := Decided(s, t, call, ids, e);
    var second;
    second, r := GiveBack(s1, t, ids);
    Chain(s, first, s1, second, r, ids);
    steps := first + second;
    assert r.threads == s.threads[t := Thread(call, false, Finished(true))];
  }

  /** So does a deletion by the administrator. */
  lemma DoDelete(s: State, t: Tid, id: Id, ids: iset<Id>) returns (steps: seq<Step>, r: State)
    requires t !in s.threads && L.Inv(s.lk) && L.PhaseOf(s.lk, t).Idle? && L.Free(s.lk, id)
    requires ValidID(id) && id in ids && KeyOf(id) in s.rows
    ensures Leads(s, steps, r, ids) && L.Inv(r.lk) && L.SamePhases(s.lk, r.lk, t) && L.PhaseOf(r.lk, t).Idle?
    ensures r == s.(lk := r.lk, rows := s.rows - {KeyOf(id)},
                    threads := s.threads[t := Thread(AdminDelete(id), false, Finished(true))])
  {
    var first, s1 := Decided(s, t, AdminDelete(id), ids, Go(DropRow(true, 0)));
    Statement(s1, t, ids);
    var s2 := RunSql(s1, t, 0, true);
    Chain(s, first, s1, [Tick(t)], s2, ids);
    assert s2.threads[t] == Thread(AdminDelete(id), false, Leave(Return(true)));
    var rest;
    rest, r := GiveBack(s2, t, ids);
    Chain(s, first + [Tick(t)], s2, rest, r, ids);
    steps := first + [Tick(t)] + rest;
    assert r.threads == s.threads[t := Thread(AdminDelete(id), false, Finished(true))];
  }

  // ---- The runs that break the properties ----

  /** A table holding one paste that anyone may view once. */
  function OnePaste(id: Id): State {
    var m := Metadata(id, "", "", "", "first", "", 0, None, "once", 0, "");
    State(L.INIT, map[KeyOf(id) := Row(0, m, [])], map[], [Birth(id, [])], [], {})
  }

  lemma OnePasteAtRest(id: Id)
    ensures AtRest(OnePaste(id)) && Viewable(OnePaste(id).rows[KeyOf(id)])
    ensures L.Inv(OnePaste(id).lk)
  {
    assert Lower("once") == "once";
    L.InitInv();
  }

  /** Two callbacks on one one-time row at once. */
  ghost predicate Overlap(r: State, t: Tid, u: Tid) {
    && t in r.threads && u in r.threads && t != u
    && r.threads[t].pc.Serving? && r.threads[u].pc.Serving? && IsOnce(r.threads[t].pc.meta)
    && KeyOf(Target(r.threads[t].call)) == KeyOf(Target(r.threads[u].call))
  }

  /** Two Views under the two spellings run their callbacks on the paste at once. */
  lemma CaseVariantsOverlap(a: Id, b: Id, ids: iset<Id>) returns (steps: seq<Step>, r: State)
    requires ValidID(a) && ValidID(b) && a in ids && b in ids && a != b && KeyOf(a) == KeyOf(b)
    ensures Leads(OnePaste(a), steps, r, ids) && Overlap(r, 0, 1)
    ensures L.Inv(r.lk) && L.PhaseOf(r.lk, 0).Holding? && L.PhaseOf(r.lk, 0).key == a
    ensures L.PhaseOf(r.lk, 1).Holding? && L.PhaseOf(r.lk, 1).key == b
    ensures forall u :: u != 0 && u != 1 ==> L.PhaseOf(r.lk, u).Idle?
    ensures var row := OnePaste(a).rows[KeyOf(a)];
      r == OnePaste(a).(lk := r.lk, threads := map[0 := Thread(AnyView(a), true, Serving(row.meta, 0, [])),
                                                   1 := Thread(AnyView(b), true, Serving(row.meta, 0, []))])
  {
    OnePasteAtRest(a);
    var first, s1 := ReachCallback(OnePaste(a), 0, a, ids);
    var second;
    second, r := ReachCallback(s1, 1, b, ids);
    Chain(OnePaste(a), first, s1, second, r, ids);
    steps := first + second;
  }

  function NewPaste(id: Id): Call {
    Create(id, [1], Metadata(id, "", "", "", "second", "", 0, None, "permanent", 0, ""))
  }

  lemma ConsumeIsBad(r: State, t: Tid)
    requires t in r.threads && r.threads[t].call.View? && r.threads[t].pc.Consume?
    requires var k := KeyOf(r.threads[t].call.id); k in r.rows && r.rows[k].meta.dataPolicy == "permanent"
    ensures BadRemoval(r, t, 0, true, KeyOf(r.threads[t].call.id))
  {
    assert Lower("permanent") == "permanent";
  }

  /** The first of the two Views consumes the paste and returns; a Create under its spelling puts
      a new one; the second View, still in its callback, is about to delete that one. */
  lemma SecondViewWaits(a: Id, b: Id, ids: iset<Id>) returns (steps: seq<Step>, r: State)
    requires ValidID(a) && ValidID(b) && a in ids && b in ids && a != b && KeyOf(a) == KeyOf(b)
    ensures Leads(OnePaste(a), steps, r, ids)
    ensures 1 in r.threads && r.threads[1] == Thread(AnyView(b), true, Consume(0, []))
    ensures KeyOf(b) in r.rows && r.rows[KeyOf(b)].gen == 1 && BadRemoval(r, 1, 0, true, KeyOf(b))
    ensures r.log == [Viewed(a, 0, true, [])] && 0 !in r.loose
  {
    var first, s1 := CaseVariantsOverlap(a, b, ids);
    var second, s2 := FinishView(s1, 0, ids);
    Chain(OnePaste(a), first, s1, second, s2, ids);
    var third, s3 := DoCreate(s2, 2, NewPaste(a), ids);
    Chain(OnePaste(a), first + second, s2, third, s3, ids);
    r := ReachConsume(s3, 1, ids);
    Chain(OnePaste(a), first + second + third, s3, [Tick(1)], r, ids);
    steps := first + second + third + [Tick(1)];
    ConsumeIsBad(r, 1);
  }

  /** And it does: one creation has been viewed twice, and a paste nobody viewed is gone. */
  lemma SecondViewSucceeds(a: Id, b: Id, ids: iset<Id>) returns (steps: seq<Step>, r: State)
    requires ValidID(a) && ValidID(b) && a in ids && b in ids && a != b && KeyOf(a) == KeyOf(b)
    ensures Leads(OnePaste(a), steps, r, ids)
    ensures r.log == [Viewed(a, 0, true, []), Viewed(b, 0, true, [])] && 0 !in r.loose && KeyOf(a) !in r.rows
  {
    var first, s1 := SecondViewWaits(a, b, ids);
    r := DoConsume(s1, 1, ids);
    Chain(OnePaste(a), first, s1, [Tick(1)], r, ids);
    steps := first + [Tick(1)];
  }

  function AddPassword(id: Id): Call {
    SetPassword(id, Secret(false, "first"), "locked")
  }

  lemma EditIsBad(r: State, t: Tid, id: Id)
    requires t in r.threads && r.threads[t].call == AddPassword(id) && r.threads[t].pc.Update?
    requires KeyOf(id) in r.rows && r.rows[KeyOf(id)].meta.manageTokenHash == "second" &&
      r.rows[KeyOf(id)].meta.passwordHash == ""
    ensures BadEdit(r, t, 0, true, KeyOf(id))
  {
    assert Next(r, Run(t, 0, true)).rows[KeyOf(id)].meta.passwordHash == "locked";
  }

  /** A password change has been checked against one paste; that is deleted and another created under
      the other spelling; the change is about to lock the new one. */
  lemma EditWaits(a: Id, b: Id, ids: iset<Id>) returns (steps: seq<Step>, r: State)
    requires ValidID(a) && ValidID(b) && a in ids && b in ids && a != b && KeyOf(a) == KeyOf(b)
    ensures Leads(OnePaste(a), steps, r, ids)
    ensures 0 in r.threads && r.threads[0] == Thread(AddPassword(b), false, Update)
    ensures KeyOf(b) in r.rows && BadEdit(r, 0, 0, true, KeyOf(b))
  {
    OnePasteAtRest(a);
    var first, s1 := Decided(OnePaste(a), 0, AddPassword(b), ids, Go(Update));
    var second, s2 := DoDelete(s1, 1, a, ids);
    Chain(OnePaste(a), first, s1, second, s2, ids);
    var third;
    third, r := DoCreate(s2, 2, NewPaste(a), ids);
    Chain(OnePaste(a), first + second, s2, third, r, ids);
    steps := first + second + third;
    EditIsBad(r, 0, b);
  }

  // ---- The properties, of all runs that use only some ids ----

  ghost predicate RunsFrom(s: State, steps: seq<Step>, ids: iset<Id>) {
    AtRest(s) && AsksOnly(steps, ids) && Legal(s, steps)
  }

  ghost predicate ExclusiveIn(ids: iset<Id>) {
    forall s, steps, t, u :: RunsFrom(s, steps, ids) ==> !Overlap(RunAll(s, steps), t, u)
  }

  ghost predicate FinalIn(ids: iset<Id>) {
    forall s, steps :: RunsFrom(s, steps, ids) ==> Final(RunAll(s, steps).log)
  }

  /** Two successful views of one creation that was always "once". */
  predicate TwoViews(r: State, i: nat, j: nat) {
    && i < j < |r.log| && r.log[i].Viewed? && r.log[j].Viewed? && r.log[i].gen == r.log[j].gen
    && r.log[i].gen !in r.loose
  }

  ghost predicate AtMostOnceIn(ids: iset<Id>) {
    forall s, steps, i, j :: RunsFrom(s, steps, ids) ==> !TwoViews(RunAll(s, steps), i, j)
  }

  ghost predicate InvIn(ids: iset<Id>) {
    forall s, steps :: RunsFrom(s, steps, ids) ==> Inv(RunAll(s, steps), ids)
  }

  ghost predicate RemovalsOkIn(ids: iset<Id>) {
    forall s, steps, t, now, ok, k :: RunsFrom(s, steps, ids) ==> !BadRemoval(RunAll(s, steps), t, now, ok, k)
  }

  predicate BadRemoval(r: State, t: Tid, now: int, ok: bool, k: RowKey) {
    && Enabled(r, Run(t, now, ok)) && k in r.rows && k !in Next(r, Run(t, now, ok)).rows && !RemovalOk(r, t, now, k)
  }

  ghost predicate EditsOkIn(ids: iset<Id>) {
    forall s, steps, t, now, ok, k :: RunsFrom(s, steps, ids) ==> !BadEdit(RunAll(s, steps), t, now, ok, k)
  }

  predicate BadEdit(r: State, t: Tid, now: int, ok: bool, k: RowKey) {
    && Enabled(r, Run(t, now, ok)) && k in r.rows && k in Next(r, Run(t, now, ok)).rows
    && !EditOk(r, t, k, Next(r, Run(t, now, ok)).rows[k])
  }

  /** Two ids in use that are one row to MySQL. */
  lemma TwoSpellings(ids: iset<Id>) returns (a: Id, b: Id)
    requires !CaseDistinct(ids)
    ensures a in ids && b in ids && a != b && KeyOf(a) == KeyOf(b)
  {
    a, b :| a in ids && b in ids && KeyOf(a) == KeyOf(b) && a != b;
  }

  lemma NoOverlap(s: State, ids: iset<Id>, steps: seq<Step>, t: Tid, u: Tid)
    requires RunsFrom(s, steps, ids) && CaseDistinct(ids)
    ensures !Overlap(RunAll(s, steps), t, u)
  {
    var r := RunAll(s, steps);
    if Overlap(r, t, u) {
      OnceCallbackIsAlone(s, ids, steps, t, u);
    }
  }

  /** One-time callbacks exclude each other in every run if and only if no two ids in use differ
      only in case. */
  lemma ExclusiveIffCaseDistinct(ids: iset<Id>)
    requires forall id :: id in ids ==> ValidID(id)
    ensures CaseDistinct(ids) <==> ExclusiveIn(ids)
  {
    if CaseDistinct(ids) {
      forall s, steps, t, u | RunsFrom(s, steps, ids) ensures !Overlap(RunAll(s, steps), t, u) {
        NoOverlap(s, ids, steps, t, u);
      }
    } else {
      var a, b := TwoSpellings(ids);
      OnePasteAtRest(a);
      var steps, r := CaseVariantsOverlap(a, b, ids);
      assert RunsFrom(OnePaste(a), steps, ids) && Overlap(RunAll(OnePaste(a), steps), 0, 1);
    }
  }

  /** In every run a one-time view is final, an always-once creation is viewed at most once, and the
      whole invariant holds, if and only if no two ids in use differ only in case. */
  lemma AtMostOnceIffCaseDistinct(ids: iset<Id>)
    requires forall id :: id in ids ==> ValidID(id)
    ensures CaseDistinct(ids) <==> FinalIn(ids)
    ensures CaseDistinct(ids) <==> AtMostOnceIn(ids)
    ensures CaseDistinct(ids) <==> InvIn(ids)
  {
    if CaseDistinct(ids) {
      forall s, steps | RunsFrom(s, steps, ids) ensures Inv(RunAll(s, steps), ids) {
        AtRestInv(s, ids);
        RunInv(s, ids, steps);
      }
      forall s, steps, i: nat, j: nat | RunsFrom(s, steps, ids) ensures !TwoViews(RunAll(s, steps), i, j) {
        if TwoViews(RunAll(s, steps), i, j) {
          OnceAtMostOnce(s, ids, steps, i, j);
        }
      }
    } else {
      var a, b := TwoSpellings(ids);
      OnePasteAtRest(a);
      var steps, r := SecondViewSucceeds(a, b, ids);
      assert RunsFrom(OnePaste(a), steps, ids);
      assert OnceView(r.log[0]) && r.log[1].gen == r.log[0].gen;
      assert TwoViews(RunAll(OnePaste(a), steps), 0, 1);
    }
  }

  /** Rows are removed only by calls entitled to it, in every run, if and only if no two ids in use
      differ only in case. */
  lemma RemovalIffCaseDistinct(ids: iset<Id>)
    requires forall id :: id in ids ==> ValidID(id)
    ensures CaseDistinct(ids) <==> RemovalsOkIn(ids)
  {
    if CaseDistinct(ids) {
      forall s, steps, t, now, ok, k | RunsFrom(s, steps, ids) ensures !BadRemoval(RunAll(s, steps), t, now, ok, k) {
        if BadRemoval(RunAll(s, steps), t, now, ok, k) {
          RemovalIsAuthorized(s, ids, steps, t, now, ok, k);
        }
      }
    } else {
      var a, b := TwoSpellings(ids);
      OnePasteAtRest(a);
      var steps, r := SecondViewWaits(a, b, ids);
      assert RunsFrom(OnePaste(a), steps, ids);
      assert BadRemoval(RunAll(OnePaste(a), steps), 1, 0, true, KeyOf(b));
    }
  }

  /** And they are changed only by calls entitled to it under the same condition. */
  lemma EditIffCaseDistinct(ids: iset<Id>)
    requires forall id :: id in ids ==> ValidID(id)
    ensures CaseDistinct(ids) <==> EditsOkIn(ids)
  {
    if CaseDistinct(ids) {
      forall s, steps, t, now, ok, k | RunsFrom(s, steps, ids) ensures !BadEdit(RunAll(s, steps), t, now, ok, k) {
        if BadEdit(RunAll(s, steps), t, now, ok, k) {
          EditIsAuthorized(s, ids, steps, t, now, ok, k);
        }
      }
    } else {
      var a, b := TwoSpellings(ids);
      OnePasteAtRest(a);
      var steps, r := EditWaits(a, b, ids);
      assert RunsFrom(OnePaste(a), steps, ids);
      assert BadEdit(RunAll(OnePaste(a), steps), 0, 0, true, KeyOf(b));
    }
  }
}
