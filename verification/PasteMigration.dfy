/** The one-time migration of local pastes into MySQL. A run may stop after any number of its
    atomic operations, by a crash or an error return, and is then started again from scratch.
    Removals of local files may fail. */
module PasteMigration {
  import opened Common
  import opened Pastes

  type Id = string
  type RowKey = string

  /** A row as the migration writes it. */
  datatype Row = Row(meta: Metadata, body: seq<byte>)

  /** Local pastes: content files with valid ids, and sidecars. */
  datatype LocalDir = LocalDir(content: map<Id, seq<byte>>, meta: map<Id, Metadata>)

  predicate Paired(p: LocalDir) {
    forall id :: id in p.content ==> id in p.meta
  }

  /** The row is a faithful copy of one local paste: it has the bytes of its file, and of its sidecar
      the password, the tokens, the label and everything else, the times to the second. */
  predicate IsCopy(row: Row, p: LocalDir, id: Id)
    requires id in p.content && id in p.meta
  {
    row.body == p.content[id] && IsStored(row.meta, p.meta[id].(id := id, size := |p.content[id]|))
  }

  datatype Entry = Entry(id: Id, meta: Metadata)

  predicate Faithful(entry: Entry, p: LocalDir) {
    && entry.id in p.content && entry.id in p.meta
    && entry.meta.(id := "") == p.meta[entry.id].(id := "")
  }

  /** Everything that survives a crash. */
  datatype Disk = Disk(content: map<Id, seq<byte>>, meta: map<Id, Metadata>, rows: map<RowKey, Row>, marker: bool)

  /** Every content file has its sidecar: otherwise every run ends with an error in its scan. */
  predicate Whole(d: Disk) {
    forall id :: id in d.content ==> id in d.meta
  }

  // ---- What holds at every moment ----

  ghost predicate Consistent(d: Disk, p: LocalDir, before: map<RowKey, Row>) {
    && Paired(p)
    // Local files are only ever removed.
    && (forall id :: id in d.content ==> id in p.content && d.content[id] == p.content[id])
    && (forall id :: id in d.meta ==> id in p.meta && d.meta[id] == p.meta[id])
    // Rows that were there are never overwritten; new ones are faithful copies.
    && (forall k :: k in before ==> k in d.rows && d.rows[k] == before[k])
    && (forall k :: k in d.rows && k !in before ==> Copied(p, k, d.rows[k]))
    // No paste is in neither place, a content file without its sidecar counting for nothing.
    && (forall id :: id in p.content ==> (id in d.content && id in d.meta) || KeyOf(id) in d.rows)
    && (d.marker ==> d.content == map[])
  }

  ghost predicate Copied(p: LocalDir, k: RowKey, row: Row)
    requires Paired(p)
  {
    exists id :: id in p.content && KeyOf(id) == k && IsCopy(row, p, id)
  }

  /** `createMySQLWithID`, one transaction: a row with an equal key makes it a no-op (ErrCodeExists). */
  function WithRow(rows: map<RowKey, Row>, id: Id, m: Metadata, body: seq<byte>): map<RowKey, Row> {
    if KeyOf(id) in rows then rows
    else rows[KeyOf(id) := Row(ReadBack(m.(id := id, size := |body|)), body)]
  }

  lemma CopyKeeps(d: Disk, p: LocalDir, before: map<RowKey, Row>, entry: Entry)
    requires Consistent(d, p, before) && entry.id in d.content && Faithful(entry, p)
    ensures Consistent(d.(rows := WithRow(d.rows, entry.id, entry.meta, d.content[entry.id])), p, before)
    ensures KeyOf(entry.id) in WithRow(d.rows, entry.id, entry.meta, d.content[entry.id])
  {
    if KeyOf(entry.id) !in d.rows {
      var rows := WithRow(d.rows, entry.id, entry.meta, d.content[entry.id]);
      ReadBackKeeps(entry.meta.(id := entry.id, size := |d.content[entry.id]|));
      assert IsCopy(rows[KeyOf(entry.id)], p, entry.id);
      assert Copied(p, KeyOf(entry.id), rows[KeyOf(entry.id)]);
    }
  }

  /** Once a paste has its row, its two files may go in either order, or only one of them. */
  lemma RemovalsKeep(d: Disk, p: LocalDir, before: map<RowKey, Row>, id: Id)
    requires Consistent(d, p, before) && KeyOf(id) in d.rows
    ensures Consistent(d.(content := d.content - {id}), p, before)
    ensures Consistent(d.(meta := d.meta - {id}), p, before)
  {
  }

  /** Every state in which moving one paste can stop, also when the removal of its content fails. */
  lemma MoveKeeps(d: Disk, p: LocalDir, before: map<RowKey, Row>, entry: Entry)
    requires Consistent(d, p, before) && entry.id in d.content && Faithful(entry, p)
    ensures var d1 := d.(rows := WithRow(d.rows, entry.id, entry.meta, d.content[entry.id]));
      var d2 := d1.(content := d1.content - {entry.id});
      && Consistent(d1, p, before) && Consistent(d2, p, before)
      && Consistent(d2.(meta := d2.meta - {entry.id}), p, before)
      && Consistent(d1.(meta := d1.meta - {entry.id}), p, before)
  {
    CopyKeeps(d, p, before, entry);
    var d1 := d.(rows := WithRow(d.rows, entry.id, entry.meta, d.content[entry.id]));
    RemovalsKeep(d1, p, before, entry.id);
    RemovalsKeep(d1.(content := d1.content - {entry.id}), p, before, entry.id);
  }

  predicate Readable(content: map<Id, seq<byte>>, meta: map<Id, Metadata>, p: LocalDir) {
    forall id :: id in content && id in meta ==> id in p.content && id in p.meta && meta[id] == p.meta[id]
  }

  lemma ConsistentIsReadable(d: Disk, p: LocalDir, before: map<RowKey, Row>)
    requires Consistent(d, p, before)
    ensures Readable(d.content, d.meta, p)
  {
  }

  lemma MarkKeeps(d: Disk, p: LocalDir, before: map<RowKey, Row>)
    requires Consistent(d, p, before) && d.content.Keys == {}
    ensures Consistent(d.(marker := true), p, before)
  {
  }

  /** A sidecar without an id gets the one of its file. */
  function EntryOf(name: Id, m: Metadata): Entry {
    Entry(name, if m.id == "" then m.(id := name) else m)
  }

  lemma EntryIsFaithful(name: Id, p: LocalDir)
    requires name in p.content && name in p.meta
    ensures Faithful(EntryOf(name, p.meta[name]), p) && EntryOf(name, p.meta[name]).id == name
  {
  }

  /** `entries` lists from position `i` on each id of `ids` once, with its metadata. */
  ghost predicate Lists(entries: seq<Entry>, i: nat, ids: set<Id>, p: LocalDir) {
    && (forall j :: i <= j < |entries| ==> entries[j].id in ids && Faithful(entries[j], p))
    && (forall id :: id in ids ==> exists j :: i <= j < |entries| && entries[j].id == id)
    && (forall j, k :: i <= j < k < |entries| ==> entries[j].id != entries[k].id)
  }

  lemma ListsStep(entries: seq<Entry>, i: nat, ids: set<Id>, p: LocalDir)
    requires i < |entries| && Lists(entries, i, ids, p)
    ensures Lists(entries, i + 1, ids - {entries[i].id}, p)
  {
    forall id | id in ids - {entries[i].id} ensures exists j :: i + 1 <= j < |entries| && entries[j].id == id {
      var j :| i <= j < |entries| && entries[j].id == id;
      assert j != i;
    }
  }

  lemma ListsEnd(entries: seq<Entry>, ids: set<Id>, p: LocalDir)
    requires Lists(entries, |entries|, ids, p)
    ensures ids == {}
  {
  }

  /** The entries of different names, once every name has been read. */
  lemma ListsAll(names: seq<Id>, entries: seq<Entry>, ids: set<Id>, p: LocalDir)
    requires |names| == |entries| && forall id :: id in ids <==> id in names
    requires forall i, j :: 0 <= i < j < |names| ==> names[i] != names[j]
    requires forall j :: 0 <= j < |names| ==> entries[j].id == names[j] && Faithful(entries[j], p)
    ensures Lists(entries, 0, ids, p)
  {
    forall id | id in ids ensures exists j :: 0 <= j < |entries| && entries[j].id == id {
      var j :| 0 <= j < |names| && names[j] == id;
      assert entries[j].id == id;
    }
  }

  /** How a run ends, and how each of its parts does. */
  datatype Outcome = Done | Crashed | Failed

  /** What befalls one run: after how many operations it crashes, and whose content and sidecar
      cannot be removed meanwhile. */
  datatype Fate = Fate(crashAfter: nat, stuck: set<Id>, stuckMeta: set<Id>)

  /** Since `d0`, only files whose content could not be removed have lost their sidecar first. */
  predicate Stranded(d0: Disk, d: Disk, fate: Fate) {
    && d.content.Keys <= d0.content.Keys
    && forall id :: id in d.content && id !in d.meta && id in d0.meta ==> id in fate.stuck && id !in fate.stuckMeta
  }

  lemma StrandedTwice(d0: Disk, d1: Disk, d2: Disk, fate: Fate)
    requires Stranded(d0, d1, fate) && Stranded(d1, d2, fate)
    ensures Stranded(d0, d2, fate)
  {
  }

  /** How moving one paste ended, and what that says about its files. */
  predicate Moved(id: Id, d: Disk, fate: Fate, outcome: Outcome) {
    match outcome
    case Done => id !in fate.stuck && id !in fate.stuckMeta
    case Failed =>
      && (id in fate.stuck || id in fate.stuckMeta)
      && (id in d.content <==> id in fate.stuck) && (id in d.meta ==> id in fate.stuckMeta)
    case Crashed => true
  }

  /** The same for all of them: completed only if nothing was in the way, and failed only on a paste in
      the way, which is stranded if its sidecar was not. */
  ghost predicate AllMoved(ids: set<Id>, d: Disk, fate: Fate, outcome: Outcome) {
    match outcome
    case Done => (fate.stuck + fate.stuckMeta) !! ids
    case Failed =>
      && !((fate.stuck + fate.stuckMeta) !! ids)
      && (fate.stuckMeta !! ids ==> !(fate.stuck !! ids) && !Whole(d))
    case Crashed => true
  }

  predicate SomeMoved(entries: seq<Entry>, i: nat, fate: Fate)
    requires i <= |entries|
  {
    forall j :: 0 <= j < i ==> entries[j].id !in fate.stuck && entries[j].id !in fate.stuckMeta
  }

  lemma MovedNext(entries: seq<Entry>, i: nat, ids: set<Id>, p: LocalDir, d: Disk, fate: Fate, outcome: Outcome)
    requires i < |entries| && Lists(entries, 0, ids, p) && SomeMoved(entries, i, fate)
    requires Moved(entries[i].id, d, fate, outcome)
    ensures if outcome == Done then SomeMoved(entries, i + 1, fate) else AllMoved(ids, d, fate, outcome)
  {
    assert entries[i].id in ids;
  }

  lemma MovedEnd(entries: seq<Entry>, ids: set<Id>, p: LocalDir, d: Disk, fate: Fate)
    requires Lists(entries, 0, ids, p) && SomeMoved(entries, |entries|, fate)
    ensures AllMoved(ids, d, fate, Done)
  {
    forall id | id in ids ensures id !in fate.stuck && id !in fate.stuckMeta {
      var j :| 0 <= j < |entries| && entries[j].id == id;
    }
  }

  class Migration {
    var content: map<Id, seq<byte>>
    var meta: map<Id, Metadata>
    var rows: map<RowKey, Row>
    var marker: bool
    var fate: Fate
    var budget: nat  // atomic operations left before the next crash

    constructor (p: LocalDir, rows: map<RowKey, Row>)
      requires Paired(p)
      ensures Inv(p, rows) && content == p.content && meta == p.meta && this.rows == rows && !marker
    {
      content, meta, this.rows, marker, budget := p.content, p.meta, rows, false, 0;
      fate := Fate(0, {}, {});
    }

    function State(): Disk
      reads this
    {
      Disk(content, meta, rows, marker)
    }

    /** What holds at every moment, crash or not, relative to the state before the first run. */
    ghost predicate Inv(p: LocalDir, before: map<RowKey, Row>)
      reads this
    {
      Consistent(State(), p, before)
    }

    /** One atomic operation, unless the crash comes first. */
    method Tick() returns (crash: bool)
      modifies `budget
      ensures crash == (old(budget) == 0) && budget == if crash then 0 else old(budget) - 1
    {
      crash := budget == 0;
      budget := if crash then 0 else budget - 1;
    }

    /** Read the sidecar of every content file; one that has none ends the run. */
    method ScanLocalPasteEntries(ghost p: LocalDir) returns (entries: seq<Entry>, outcome: Outcome)
      requires Readable(content, meta, p)
      modifies `budget
      ensures outcome == Done ==>
        Lists(entries, 0, content.Keys, p) && |entries| == |content| && budget + |content| == old(budget)
      ensures outcome == Done ==> Whole(State())
      ensures outcome == Failed ==> !Whole(State())
      ensures outcome == Crashed ==> old(budget) < |content|
    {
      var names := Enumerate(content.Keys);
      entries, outcome := [], Done;
      for i := 0 to |names|
        invariant |entries| == i && budget + i == old(budget)
        invariant forall j :: 0 <= j < i ==> names[j] in meta && entries[j].id == names[j] && Faithful(entries[j], p)
      {
        var crash := Tick();
        if crash {
          return entries, Crashed;
        }
        assert names[i] in content;
        if names[i] !in meta {
          return entries, Failed;
        }
        entries := entries + [EntryOf(names[i], meta[names[i]])];
        EntryIsFaithful(names[i], p);
      }
      ListsAll(names, entries, content.Keys, p);
    }

    /** Both files are attempted, content first: a content that cannot be removed does not keep its
        sidecar. */
    method RemoveLocalPaste(id: Id, ghost p: LocalDir, ghost before: map<RowKey, Row>) returns (outcome: Outcome)
      requires Inv(p, before) && id in content && KeyOf(id) in rows
      modifies `budget, `content, `meta
      ensures Inv(p, before) && Stranded(old(State()), State(), fate)
      ensures outcome == Done ==> content.Keys == old(content.Keys) - {id} && budget + 2 == old(budget)
      ensures outcome == Done ==> id !in fate.stuck && id !in fate.stuckMeta
      ensures outcome == Failed ==> id in fate.stuck || id in fate.stuckMeta
      ensures outcome == Crashed ==> old(budget) < 2
      ensures outcome != Crashed ==>
        (id in content <==> id in fate.stuck) && (id in meta <==> id in old(meta) && id in fate.stuckMeta)
    {
      RemovalsKeep(State(), p, before, id);
      var crash := Tick();
      if crash { return Crashed; }
      if id !in fate.stuck {
        content := content - {id};
      }
      ghost var d := State();
      assert Consistent(d, p, before);
      RemovalsKeep(d, p, before, id);
      crash := Tick();
      if crash { return Crashed; }
      if id !in fate.stuckMeta {
        meta := meta - {id};
      }
      assert State() == d || State() == d.(meta := d.meta - {id});
      outcome := if id in fate.stuck || id in fate.stuckMeta then Failed else Done;
    }

    /** Copy one paste and remove its files. */
    method MoveOne(entry: Entry, ghost p: LocalDir, ghost before: map<RowKey, Row>) returns (outcome: Outcome)
      requires Inv(p, before) && entry.id in content && Faithful(entry, p)
      modifies `budget, `rows, `content, `meta
      ensures Inv(p, before) && Stranded(old(State()), State(), fate)
      ensures outcome == Done ==> content.Keys == old(content.Keys) - {entry.id} && budget + 3 == old(budget)
      ensures outcome == Done ==> entry.id !in fate.stuck && entry.id !in fate.stuckMeta
      ensures outcome == Failed ==> entry.id in fate.stuck || entry.id in fate.stuckMeta
      ensures outcome == Failed ==>
        (entry.id in content <==> entry.id in fate.stuck) && (entry.id in meta ==> entry.id in fate.stuckMeta)
      ensures outcome == Crashed ==> old(budget) < 3
    {
      ghost var d := State();
      CopyKeeps(d, p, before, entry);
      var crash := Tick();
      if crash { return Crashed; }
      rows := WithRow(rows, entry.id, entry.meta, content[entry.id]);
      assert State() == d.(rows := WithRow(d.rows, entry.id, entry.meta, d.content[entry.id]));
      outcome := RemoveLocalPaste(entry.id, p, before);
    }

    method MoveNext(entries: seq<Entry>, i: nat, ghost d0: Disk, ghost p: LocalDir, ghost before: map<RowKey, Row>)
      returns (outcome: Outcome)
      requires Inv(p, before) && Stranded(d0, State(), fate) && i < |entries| && Lists(entries, i, content.Keys, p)
      modifies `budget, `rows, `content, `meta
      ensures Inv(p, before) && Stranded(d0, State(), fate)
      ensures outcome == Done ==> Lists(entries, i + 1, content.Keys, p) && budget + 3 == old(budget)
      ensures Moved(entries[i].id, State(), fate, outcome)
      ensures outcome == Crashed ==> old(budget) < 3
    {
      ghost var d := State();
      ListsStep(entries, i, content.Keys, p);
      outcome := MoveOne(entries[i], p, before);
      StrandedTwice(d0, d, State(), fate);
    }

    method MoveAll(entries: seq<Entry>, ghost p: LocalDir, ghost before: map<RowKey, Row>) returns (outcome: Outcome)
      requires Inv(p, before) && Lists(entries, 0, content.Keys, p)
      modifies `budget, `rows, `content, `meta
      ensures Inv(p, before) && Stranded(old(State()), State(), fate)
      ensures outcome == Done ==> content.Keys == {} && budget + 3 * |entries| == old(budget)
      ensures AllMoved(old(content.Keys), State(), fate, outcome)
      ensures outcome == Crashed ==> old(budget) < 3 * |entries|
    {
      ghost var d0, ids := State(), content.Keys;
      for i := 0 to |entries|
        invariant Inv(p, before) && Stranded(d0, State(), fate) && Lists(entries, i, content.Keys, p)
        invariant SomeMoved(entries, i, fate)
        invariant budget + 3 * i == old(budget)
      {
        outcome := MoveNext(entries, i, d0, p, before);
        MovedNext(entries, i, ids, p, State(), fate, outcome);
        if outcome != Done { return; }
      }
      ListsEnd(entries, content.Keys, p);
      outcome := Done;
      MovedEnd(entries, ids, p, State(), fate);
    }

    /** What a run does after its scan. */
    method Finish(entries: seq<Entry>, ghost p: LocalDir, ghost before: map<RowKey, Row>) returns (outcome: Outcome)
      requires Inv(p, before) && !marker && Lists(entries, 0, content.Keys, p)
      modifies `budget, `rows, `content, `meta, `marker
      ensures Inv(p, before) && Stranded(old(State()), State(), fate)
      ensures marker <==> outcome == Done
      ensures AllMoved(old(content.Keys), State(), fate, outcome)
      ensures outcome == Crashed ==> old(budget) < 3 * |entries| + 1
    {
      outcome := MoveAll(entries, p, before);
      if outcome != Done { return; }
      var crash := Tick();
      if crash { return Crashed; }
      MarkKeeps(State(), p, before);
      marker := true;
    }

    /** One run. It reports completion only with the marker set, and once that is set it changes
        nothing. Not crashed, with nothing in its way, it completes if and only if every content file has
        its sidecar; without that no run ever changes anything again. And a run that is not crashed, with
        no sidecar in its way, loses that if and only if there is a content file it cannot remove. */
    method MigrateLocalPastesToMySQL(fate: Fate, ghost p: LocalDir, ghost before: map<RowKey, Row>)
      returns (outcome: Outcome)
      requires Inv(p, before)
      modifies this
      ensures Inv(p, before)
      ensures outcome == Done ==> marker
      ensures fate.crashAfter >= 3 + 4 * |old(content)| && (fate.stuck + fate.stuckMeta) !! old(content).Keys ==>
        (outcome == Done <==> old(marker) || Whole(old(State())))
      ensures old(marker) || !Whole(old(State())) ==> State() == old(State())
      ensures Stranded(old(State()), State(), fate)
      ensures fate.crashAfter >= 3 + 4 * |old(content)| && fate.stuckMeta !! old(content).Keys
              && !old(marker) && Whole(old(State())) ==>
        (Whole(State()) <==> fate.stuck !! old(content).Keys)
    {
      this.fate := fate;
      budget := fate.crashAfter;
      ghost var d := State();
      var crash := Tick();
      assert State() == d;
      if crash { return Crashed; }
      if marker { return Done; }
      crash := Tick();
      assert State() == d;
      if crash { return Crashed; }
      var entries;
      ConsistentIsReadable(d, p, before);
      entries, outcome := ScanLocalPasteEntries(p);
      assert State() == d;
      if outcome != Done { return; }
      outcome := Finish(entries, p, before);
    }
  }

  // ---- When is nothing lost? ----

  /** Every original paste is still in the directory, with its sidecar, or is, unchanged, the row of
      its id. */
  ghost predicate NothingLost(m: Migration, p: LocalDir)
    requires Paired(p)
    reads m
  {
    forall id :: id in p.content ==>
      || (id in m.content && id in m.meta && m.content[id] == p.content[id] && m.meta[id] == p.meta[id])
      || (KeyOf(id) in m.rows && IsCopy(m.rows[KeyOf(id)], p, id))
  }

  /** What can be checked before the first run: no two local ids share a key, and any row already
      under a local paste's key is that paste's own copy. */
  ghost predicate Separate(p: LocalDir, before: map<RowKey, Row>)
    requires Paired(p)
  {
    && (forall a, b :: a in p.content && b in p.content && KeyOf(a) == KeyOf(b) ==> a == b)
    && (forall id :: id in p.content && KeyOf(id) in before ==> IsCopy(before[KeyOf(id)], p, id))
  }

  /** With separate ids nothing is lost at any moment of any number of interrupted or failed runs. */
  lemma SeparateIdsLoseNothing(m: Migration, p: LocalDir, before: map<RowKey, Row>)
    requires m.Inv(p, before) && Separate(p, before)
    ensures NothingLost(m, p)
  {
    forall id | id in p.content && !(id in m.content && id in m.meta)
      ensures KeyOf(id) in m.rows && IsCopy(m.rows[KeyOf(id)], p, id)
    {
      if KeyOf(id) !in before {
        assert Copied(p, KeyOf(id), m.rows[KeyOf(id)]);
      }
    }
  }

  /** And that condition is exact: a migration that has completed lost nothing if and only if the
      ids were separate. Two ids that differ only in case leave one copy and delete the other. */
  lemma CompleteMigrationLosesNothingIff(m: Migration, p: LocalDir, before: map<RowKey, Row>)
    requires m.Inv(p, before) && m.marker
    ensures NothingLost(m, p) <==> Separate(p, before)
  {
    if Separate(p, before) {
      SeparateIdsLoseNothing(m, p, before);
    }
    if NothingLost(m, p) {
      forall a, b | a in p.content && b in p.content && KeyOf(a) == KeyOf(b)
        ensures a == b
      {
        assert IsCopy(m.rows[KeyOf(a)], p, a) && IsCopy(m.rows[KeyOf(b)], p, b);
      }
    }
  }

  /** So once it has completed every paste has its row, and in it every field of its sidecar. */
  lemma EveryFieldArrives(m: Migration, p: LocalDir, before: map<RowKey, Row>, id: Id)
    requires m.Inv(p, before) && m.marker && Separate(p, before) && id in p.content
    ensures KeyOf(id) in m.rows && m.rows[KeyOf(id)].body == p.content[id]
    ensures var was, got := p.meta[id], m.rows[KeyOf(id)].meta;
      && got.id == id && got.size == |p.content[id]| && got.filename == was.filename && got.title == was.title
      && got.passwordHash == was.passwordHash && got.manageTokenHash == was.manageTokenHash
      && got.deleteTokenHash == was.deleteTokenHash && got.dataPolicy == was.dataPolicy
      && got.contentType == was.contentType && got.createdAt <= was.createdAt < got.createdAt + 1_000_000_000
      && (got.expiresAt.Some? ==>
        was.expiresAt.Some? && got.expiresAt.value <= was.expiresAt.value < got.expiresAt.value + 1_000_000_000)
      && (got.expiresAt.None? && was.expiresAt.Some? ==> 0 <= was.expiresAt.value < 1_000_000_000)
  {
    SeparateIdsLoseNothing(m, p, before);
  }

  /** No content file of these runs was ever impossible to remove while its sidecar was not. */
  predicate Removable(fates: seq<Fate>) {
    forall i :: 0 <= i < |fates| ==> fates[i].stuck <= fates[i].stuckMeta
  }

  /** A first run that nothing keeps from its end but content files it cannot remove. */
  predicate LeftAlone(fate: Fate, p: LocalDir) {
    fate.crashAfter >= 3 + 4 * |p.content| && fate.stuckMeta !! p.content.Keys
  }

  /** Any number of runs that crash or fail, and one that is left to finish: it completes if and only if,
      on the disk it finds, every content file still has its sidecar. That is certain when no sidecar
      was removed under a content that could not be; and if the first run was left alone it is so if
      and only if that run could remove every content file. After completion no content file is left.
      Rows are never overwritten. */
  method RestartUntilDone(p: LocalDir, before: map<RowKey, Row>, fates: seq<Fate>)
    returns (m: Migration, outcome: Outcome, ghost last: Disk)
    requires Paired(p)
    ensures Consistent(last, p, before)
    ensures outcome == Done <==> m.marker
    ensures outcome == Done <==> last.marker || Whole(last)
    ensures Removable(fates) ==> outcome == Done
    ensures fates != [] && LeftAlone(fates[0], p) ==> (outcome == Done <==> fates[0].stuck !! p.content.Keys)
    ensures m.marker ==> m.content == map[] && (NothingLost(m, p) <==> Separate(p, before))
    ensures !m.marker ==> m.State() == last && (Separate(p, before) ==> NothingLost(m, p))
    ensures forall k :: k in before ==> k in m.rows && m.rows[k] == before[k]
  {
    m := new Migration(p, before);
    for i := 0 to |fates|
      invariant m.Inv(p, before) && (i == 0 ==> m.content == p.content && !m.marker && Whole(m.State()))
      invariant Removable(fates) ==> Whole(m.State())
      invariant i > 0 && LeftAlone(fates[0], p) ==>
        (if fates[0].stuck !! p.content.Keys then m.marker else !m.marker && !Whole(m.State()))
    {
      var _ := m.MigrateLocalPastesToMySQL(fates[i], p, before);
    }
    last := m.State();
    outcome := m.MigrateLocalPastesToMySQL(Fate(3 + 4 * |m.content|, {}, {}), p, before);
    if m.marker {
      CompleteMigrationLosesNothingIff(m, p, before);
    } else if Separate(p, before) {
      SeparateIdsLoseNothing(m, p, before);
    }
  }

  /** The run that strands a directory: one content file cannot be removed once, its sidecar can; ever
      after the migration cannot be completed, although nothing is in its way any more. */
  method OneStuckContentStrands(p: LocalDir, before: map<RowKey, Row>, id: Id, fates: seq<Fate>)
    returns (m: Migration, outcome: Outcome)
    requires Paired(p) && id in p.content
    ensures outcome != Done && !m.marker && id in m.content && id !in m.meta
  {
    var first := Fate(3 + 4 * |p.content|, {id}, {});
    m := new Migration(p, before);
    outcome := m.MigrateLocalPastesToMySQL(first, p, before);
    assert id in first.stuck && id in p.content.Keys;
    assert !Whole(m.State());
    for i := 0 to |fates|
      invariant m.Inv(p, before) && !m.marker && !Whole(m.State()) &&
        Stranded(Disk(p.content, p.meta, before, false), m.State(), first)
    {
      var _ := m.MigrateLocalPastesToMySQL(fates[i], p, before);
    }
    outcome := m.MigrateLocalPastesToMySQL(Fate(3 + 4 * |m.content|, {}, {}), p, before);
    var stranded :| stranded in m.content && stranded !in m.meta;
    assert stranded == id;
  }
}
