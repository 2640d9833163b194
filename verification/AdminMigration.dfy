/** The one-time migration of the admin account, sessions and settings from SQLite to MySQL. As with
    pastes, a run may stop after any of its statements and is then started again. MySQL starts
    without admin data; its key columns compare under a collation, here any function `fold`. */
module AdminMigration {
  import opened Common
  import opened Pastes

  type Fold = string -> string

  datatype Account = Account(username: string, passwordHash: string, salt: string, createdAt: int)

  /** A MySQL row remembers the key it was first inserted with. */
  datatype Keyed<T> = Keyed(key: string, value: T)

  type Table<T> = map<string, T>             // SQLite: keys compare exactly
  type Collated<T> = map<string, Keyed<T>>   // MySQL: indexed by the folded key

  datatype Session = Session(createdAt: int, expiresAt: int)
  datatype Setting = Setting(value: string, updatedAt: int)

  datatype Disk = Disk(
    admin: Option<Account>, sessions: Table<Session>, settings: Table<Setting>,
    mysqlAdmin: Option<Account>, mysqlSessions: Collated<Session>, mysqlSettings: Collated<Setting>)

  const PREFIX := "migration."
  const MARKER := PREFIX + "sqlite_admin_accounts_to_mysql"

  /** SQLite's LIKE 'migration.%' ignores case. */
  predicate IsMarker(key: string) {
    |key| >= |PREFIX| && forall i :: 0 <= i < |PREFIX| ==> LowerChar(key[i]) == PREFIX[i]
  }

  /** A marker begins with "migration." in any case, so a key without a dot, such as that of any setting of
      the program, is none. */
  lemma IsMarkerIff(key: string)
    ensures IsMarker(key) <==> |key| >= 10 && Lower(key[..10]) == "migration."
    ensures '.' !in key ==> !IsMarker(key)
  {
    if |key| >= 10 {
      assert forall i :: 0 <= i < 10 ==> Lower(key[..10])[i] == LowerChar(key[i]);
      if IsMarker(key) {
        assert LowerChar(key[9]) == '.';
        assert key[9] == '.';
      }
    }
  }

  function Others(settings: Table<Setting>): Table<Setting> {
    map k | k in settings && !IsMarker(k) :: settings[k]
  }

  predicate MigrationDone(d: Disk) {
    MARKER in d.settings && d.settings[MARKER].value == "true"
  }

  /** INSERT ... ON DUPLICATE KEY UPDATE. */
  function Upsert<T>(t: Collated<T>, fold: Fold, key: string, value: T): Collated<T> {
    t[fold(key) := if fold(key) in t then Keyed(t[fold(key)].key, value) else Keyed(key, value)]
  }

  // ---- One table at any moment ----

  /** `dst` holds only rows of `src`, under keys that fold alike. */
  ghost predicate Copies<T>(src: Table<T>, dst: Collated<T>, fold: Fold) {
    forall k :: k in dst ==>
      && dst[k].key in src && fold(dst[k].key) == k
      && exists key :: key in src && fold(key) == k && dst[k].value == src[key]
  }

  predicate Covers<T>(keys: set<string>, dst: Collated<T>, fold: Fold) {
    forall key :: key in keys ==> fold(key) in dst
  }

  /** The source is untouched, or emptied after everything was copied. */
  ghost predicate Moving<T>(original: Table<T>, src: Table<T>, dst: Collated<T>, fold: Fold) {
    && Copies(original, dst, fold)
    && (src == original || (src == map[] && Covers(original.Keys, dst, fold)))
  }

  /** Every original row is in MySQL exactly as it was. */
  predicate Exact<T(==)>(original: Table<T>, dst: Collated<T>, fold: Fold) {
    && (forall key :: key in original ==> fold(key) in dst && dst[fold(key)] == Keyed(key, original[key]))
    && (forall k :: k in dst ==> dst[k].key in original && fold(dst[k].key) == k)
  }

  predicate DistinctKeys(keys: set<string>, fold: Fold) {
    forall a, b :: a in keys && b in keys && fold(a) == fold(b) ==> a == b
  }

  lemma UpsertKeepsCopies<T>(src: Table<T>, dst: Collated<T>, fold: Fold, key: string)
    requires Copies(src, dst, fold) && key in src
    ensures Copies(src, Upsert(dst, fold, key, src[key]), fold)
    ensures var t := Upsert(dst, fold, key, src[key]); var k := fold(key);
      && k in t && t[k].value == src[key] && (k in dst ==> t[k].key == dst[k].key)
      && (forall j :: j != k ==> (j in t <==> j in dst) && (j in dst ==> t[j] == dst[j]))
  {
  }

  /** A table that has been moved arrived exactly if and only if its keys are distinct under the collation. */
  lemma MovedExactlyIff<T>(original: Table<T>, dst: Collated<T>, fold: Fold)
    requires Copies(original, dst, fold) && Covers(original.Keys, dst, fold)
    ensures Exact(original, dst, fold) <==> DistinctKeys(original.Keys, fold)
  {
    if DistinctKeys(original.Keys, fold) {
      forall key | key in original ensures dst[fold(key)] == Keyed(key, original[key]) {
        var k := fold(key);
        var other :| other in original && fold(other) == k && dst[k].value == original[other];
        assert other == key && dst[k].key == key;
      }
    }
  }

  /** Keys the program makes itself are lower-case already, so no case-insensitive collation merges them. */
  lemma LowerCaseKeysAreDistinct(keys: set<string>)
    requires forall k :: k in keys ==> Lower(k) == k
    ensures DistinctKeys(keys, Lower)
  {
  }

  // ---- Everything, at any moment ----

  ghost predicate Consistent(d: Disk, o: Disk, fold: Fold) {
    && (d.admin == o.admin || (d.admin.None? && d.mysqlAdmin == o.admin))
    && (d.mysqlAdmin == o.admin || d.mysqlAdmin.None?)
    && Moving(o.sessions, d.sessions, d.mysqlSessions, fold)
    && Moving(Others(o.settings), Others(d.settings), d.mysqlSettings, fold)
    && (forall k :: k in d.settings ==> k in o.settings || k == MARKER)
    && (MigrationDone(d) && !MigrationDone(o) ==> Complete(d, o, fold))
  }

  ghost predicate Complete(d: Disk, o: Disk, fold: Fold) {
    && d.admin.None? && d.mysqlAdmin == o.admin
    && d.sessions == map[] && Covers(o.sessions.Keys, d.mysqlSessions, fold)
    && Others(d.settings) == map[] && Covers(Others(o.settings).Keys, d.mysqlSettings, fold)
  }

  /** A starting point: MySQL has no admin data yet, and the migration has not been recorded. */
  predicate Start(o: Disk) {
    o.mysqlAdmin.None? && o.mysqlSessions == map[] && o.mysqlSettings == map[] && !MigrationDone(o)
  }

  /** Copy rows one statement at a time; a crash leaves those copied so far. */
  method CopyRows<T>(src: Table<T>, dst: Collated<T>, fold: Fold, budget: nat)
    returns (copied: Collated<T>, left: nat, crash: bool)
    requires Copies(src, dst, fold)
    ensures Copies(src, copied, fold)
    ensures !crash ==> Covers(src.Keys, copied, fold) && left + |src| == budget
    ensures crash ==> left == 0 && budget < |src|
  {
    var keys := Enumerate(src.Keys);
    copied, left, crash := dst, budget, false;
    for i := 0 to |keys|
      invariant Copies(src, copied, fold)
      invariant forall j :: 0 <= j < i ==> fold(keys[j]) in copied
      invariant left + i == budget
    {
      if left == 0 {
        return copied, 0, true;
      }
      left := left - 1;
      assert keys[i] in src.Keys;
      UpsertKeepsCopies(src, copied, fold, keys[i]);
      copied := Upsert(copied, fold, keys[i], src[keys[i]]);
    }
  }

  // ---- The statements that empty SQLite and record completion ----

  function OnlyMarkers(settings: Table<Setting>): Table<Setting> {
    map k | k in settings && IsMarker(k) :: settings[k]
  }

  lemma CopiedSettingsKeep(d: Disk, o: Disk, fold: Fold, copied: Collated<Setting>)
    requires Consistent(d, o, fold) && !MigrationDone(d) && Others(d.settings) != map[]
    requires Copies(Others(d.settings), copied, fold)
    ensures Consistent(d.(mysqlSettings := copied), o, fold) && Others(d.settings) == Others(o.settings)
  {
  }

  lemma EmptySettingsKeeps(d: Disk, o: Disk, fold: Fold)
    requires Consistent(d, o, fold) && !MigrationDone(d) && Covers(Others(o.settings).Keys, d.mysqlSettings, fold)
    ensures Consistent(d.(settings := OnlyMarkers(d.settings)), o, fold) &&
      !MigrationDone(d.(settings := OnlyMarkers(d.settings)))
    ensures Others(OnlyMarkers(d.settings)) == map[]
  {
  }

  function Marked(d: Disk): Disk {
    d.(settings := d.settings[MARKER := Setting("true", 0)])
  }

  lemma MarkKeeps(d: Disk, o: Disk, fold: Fold)
    requires Consistent(d, o, fold) && Complete(d, o, fold)
    ensures Consistent(Marked(d), o, fold) && MigrationDone(Marked(d)) && Complete(Marked(d), o, fold)
  {
    assert forall i :: 0 <= i < |PREFIX| ==> MARKER[i] == PREFIX[i] && LowerChar(PREFIX[i]) == PREFIX[i];
    assert Others(Marked(d).settings) == Others(d.settings);
  }

  class Migration {
    const fold: Fold
    var disk: Disk
    var budget: nat

    constructor (fold: Fold, o: Disk)
      requires Start(o)
      ensures this.fold == fold && disk == o && Consistent(o, o, fold)
    {
      this.fold, disk, budget := fold, o, 0;
    }

    method Tick() returns (crash: bool)
      modifies `budget
      ensures crash == (old(budget) == 0) && budget == if crash then 0 else old(budget) - 1
    {
      crash := budget == 0;
      budget := if crash then 0 else budget - 1;
    }

    method MigrateAccount(ghost o: Disk) returns (crash: bool)
      requires Start(o) && Consistent(disk, o, fold) && !MigrationDone(disk)
      modifies this
      ensures Consistent(disk, o, fold) && !MigrationDone(disk)
      ensures disk == old(disk).(admin := disk.admin, mysqlAdmin := disk.mysqlAdmin)
      ensures !crash ==> disk.admin.None? && disk.mysqlAdmin == o.admin
      ensures if crash then old(budget) < 4 else old(budget) <= budget + 4
    {
      crash := Tick();
      if crash { return; }
      if disk.admin.Some? {
        crash := Tick();
        if crash { return; }
        var account := disk.admin;
        crash := Tick();
        if crash { return; }
        disk := disk.(mysqlAdmin := account);
        crash := Tick();
        if crash { return; }
        disk := disk.(admin := None);
      }
    }

    method MigrateSessions(ghost o: Disk) returns (crash: bool)
      requires Start(o) && Consistent(disk, o, fold) && !MigrationDone(disk)
      modifies this
      ensures Consistent(disk, o, fold) && !MigrationDone(disk)
      ensures disk == old(disk).(sessions := disk.sessions, mysqlSessions := disk.mysqlSessions)
      ensures !crash ==> disk.sessions == map[] && Covers(o.sessions.Keys, disk.mysqlSessions, fold)
      ensures if crash then old(budget) < 2 + |o.sessions| else old(budget) <= budget + 2 + |o.sessions|
    {
      crash := Tick();
      if crash { return; }
      var sessions := disk.sessions;
      if sessions == map[] {
        return;
      }
      var copied;
      copied, budget, crash := CopyRows(sessions, disk.mysqlSessions, fold, budget);
      disk := disk.(mysqlSessions := copied);
      if crash { return; }
      crash := Tick();
      if crash { return; }
      disk := disk.(sessions := map[]);
    }

    method MigrateSettings(ghost o: Disk) returns (crash: bool)
      requires Start(o) && Consistent(disk, o, fold) && !MigrationDone(disk)
      modifies this
      ensures Consistent(disk, o, fold) && !MigrationDone(disk)
      ensures disk == old(disk).(settings := disk.settings, mysqlSettings := disk.mysqlSettings)
      ensures !crash ==> Others(disk.settings) == map[] && Covers(Others(o.settings).Keys, disk.mysqlSettings, fold)
      ensures if crash then old(budget) < 2 + |Others(o.settings)| else old(budget) <= budget + 2 + |Others(o.settings)|
    {
      crash := Tick();
      if crash { return; }
      var settings := Others(disk.settings);
      if settings == map[] {
        return;
      }
      var copied;
      copied, budget, crash := CopyRows(settings, disk.mysqlSettings, fold, budget);
      CopiedSettingsKeep(disk, o, fold, copied);
      disk := disk.(mysqlSettings := copied);
      if crash { return; }
      crash := Tick();
      if crash { return; }
      EmptySettingsKeeps(disk, o, fold);
      disk := disk.(settings := OnlyMarkers(disk.settings));
    }

    /** One run of the whole migration. */
    method MigrateSQLiteAdminAccountsToMySQL(crashAfter: nat, ghost o: Disk) returns (done: bool)
      requires Start(o) && Consistent(disk, o, fold)
      modifies this
      ensures Consistent(disk, o, fold)
      ensures done ==> MigrationDone(disk)
      ensures crashAfter >= 10 + |o.sessions| + |Others(o.settings)| ==> done
      ensures MigrationDone(old(disk)) ==> disk == old(disk)
    {
      budget := crashAfter;
      var crash := Tick();
      if crash { return false; }
      if MigrationDone(disk) { return true; }
      crash := MigrateAccount(o);
      if crash { return false; }
      crash := MigrateSessions(o);
      if crash { return false; }
      crash := MigrateSettings(o);
      if crash { return false; }
      crash := Tick();
      if crash { return false; }
      MarkKeeps(disk, o, fold);
      disk := Marked(disk);
      done := true;
    }
  }

  // ---- What the server observes meanwhile ----

  predicate AdminExists(d: Disk) {
    d.mysqlAdmin.Some? || d.admin.Some?
  }

  /** `hash` stands for the salted, iterated password hash. */
  predicate AuthenticateAdmin(d: Disk, fold: Fold,
                              hash: (string, string) -> string, username: string, password: string) {
    || (d.mysqlAdmin.Some? && fold(d.mysqlAdmin.value.username) == fold(username)
        && hash(password, d.mysqlAdmin.value.salt) == d.mysqlAdmin.value.passwordHash)
    || (d.admin.Some? && d.admin.value.username == username
        && hash(password, d.admin.value.salt) == d.admin.value.passwordHash)
  }

  /** Whether an admin account exists never changes, at any moment of any number of runs. */
  lemma AdminExistsIsStable(d: Disk, o: Disk, fold: Fold)
    requires Start(o) && Consistent(d, o, fold)
    ensures AdminExists(d) <==> o.admin.Some?
  {
  }

  /** At any moment a login is let in exactly with the right password for the account there was at the
      start, under its name or, once it has been copied, any name the collation takes for it. */
  lemma AuthenticatesIff(d: Disk, o: Disk, fold: Fold,
                         hash: (string, string) -> string, username: string, password: string)
    requires Start(o) && Consistent(d, o, fold)
    ensures AuthenticateAdmin(d, fold, hash, username, password) <==>
      && o.admin.Some? && hash(password, o.admin.value.salt) == o.admin.value.passwordHash
      && (|| username == o.admin.value.username
          || (d.mysqlAdmin.Some? && fold(username) == fold(o.admin.value.username)))
  {
  }

  /** Logins that worked keep working; a login's verdict changes if and only if the account has
      been copied and the given name is a different spelling that the collation takes for it. */
  lemma AuthenticateChangesIff(d: Disk, o: Disk, fold: Fold,
                               hash: (string, string) -> string, username: string, password: string)
    requires Start(o) && Consistent(d, o, fold)
    ensures AuthenticateAdmin(o, fold, hash, username, password) ==>
      AuthenticateAdmin(d, fold, hash, username, password)
    ensures
      AuthenticateAdmin(d, fold, hash, username, password) != AuthenticateAdmin(o, fold, hash, username, password) <==>
      && d.mysqlAdmin.Some? && username != d.mysqlAdmin.value.username
      && fold(username) == fold(d.mysqlAdmin.value.username)
      && hash(password, d.mysqlAdmin.value.salt) == d.mysqlAdmin.value.passwordHash
  {
  }

  /** No session and no setting is ever in neither database, and where keys are distinct under the
      collation a copy that is there is exact. */
  lemma NothingInNeither(d: Disk, o: Disk, fold: Fold, key: string)
    requires Start(o) && Consistent(d, o, fold)
    ensures key in o.sessions ==>
      (key in d.sessions && d.sessions[key] == o.sessions[key]) || fold(key) in d.mysqlSessions
    ensures key in o.settings && !IsMarker(key) ==>
      (key in d.settings && d.settings[key] == o.settings[key]) || fold(key) in d.mysqlSettings
    ensures DistinctKeys(o.sessions.Keys, fold) && key in o.sessions && fold(key) in d.mysqlSessions ==>
      d.mysqlSessions[fold(key)] == Keyed(key, o.sessions[key])
    ensures DistinctKeys(Others(o.settings).Keys, fold) && key in Others(o.settings) && fold(key) in d.mysqlSettings ==>
      d.mysqlSettings[fold(key)] == Keyed(key, o.settings[key])
  {
    if key in o.settings && !IsMarker(key) {
      assert key in Others(o.settings);
      if Others(d.settings) == Others(o.settings) {
        assert Others(d.settings)[key] == o.settings[key];
      }
    }
  }

  /** Once the migration is recorded as done a setting of the program is read from MySQL as it was. */
  lemma SettingArrives(d: Disk, o: Disk, fold: Fold, key: string)
    requires Start(o) && Consistent(d, o, fold) && MigrationDone(d) && DistinctKeys(Others(o.settings).Keys, fold)
    requires key in o.settings && '.' !in key
    ensures fold(key) in d.mysqlSettings && d.mysqlSettings[fold(key)] == Keyed(key, o.settings[key])
  {
    IsMarkerIff(key);
    assert key in Others(o.settings).Keys;
    NothingInNeither(d, o, fold, key);
  }

  /** Any number of interrupted runs and one left to finish: MySQL has the account and, exactly when
      the keys are distinct under its collation, the original sessions and settings; SQLite has
      nothing but markers. */
  method RestartUntilDone(fold: Fold, o: Disk, crashes: seq<nat>) returns (m: Migration)
    requires Start(o)
    ensures m.disk.mysqlAdmin == o.admin && m.disk.admin.None? && m.disk.sessions == map[]
    ensures forall k :: k in m.disk.settings ==> IsMarker(k)
    ensures Exact(o.sessions, m.disk.mysqlSessions, fold) <==> DistinctKeys(o.sessions.Keys, fold)
    ensures Exact(Others(o.settings), m.disk.mysqlSettings, fold) <==> DistinctKeys(Others(o.settings).Keys, fold)
  {
    m := new Migration(fold, o);
    for i := 0 to |crashes|
      invariant m.fold == fold && Consistent(m.disk, o, fold)
    {
      var _ := m.MigrateSQLiteAdminAccountsToMySQL(crashes[i], o);
    }
    var done := m.MigrateSQLiteAdminAccountsToMySQL(10 + |o.sessions| + |Others(o.settings)|, o);
    MovedExactlyIff(o.sessions, m.disk.mysqlSessions, fold);
    MovedExactlyIff(Others(o.settings), m.disk.mysqlSettings, fold);
    assert forall k :: k in m.disk.settings && !IsMarker(k) ==> k in Others(m.disk.settings);
  }
}
