/** The cached paste list. `CacheSpec` says what the guarded sections do; `PasteListCache` is the
    object that does it; `ListCacheProtocol` runs them against a directory that changes meanwhile. */
module CacheSpec {
  import opened Common

  const TTL := 5 * 1_000_000_000            // pasteListCacheTTL, in nanoseconds
  const GENERATIONS := 0x1_0000_0000_0000_0000  // the generation is an unsigned 64-bit counter

  /** `until == None` is the zero time, before which no clock reading lies. */
  datatype Cache<T> = Cache(items: T, until: Option<int>, gen: nat)

  function Lookup<T>(c: Cache<T>, now: int): Option<T> {
    if c.until.Some? && now < c.until.value then Some(c.items) else None
  }

  function Stored<T>(c: Cache<T>, items: T, until: int, gen: nat): Cache<T> {
    if c.gen == gen then Cache(items, Some(until), c.gen) else c
  }

  function Invalidated<T>(c: Cache<T>, empty: T): Cache<T> {
    Cache(empty, None, (c.gen + 1) % GENERATIONS)
  }

  /** A list stored under the generation it was read in is found until its time is up, one of another
      generation is not stored; after an invalidation nothing is found, and a list read before it is
      stored no more. */
  lemma CacheWorks<T>(c: Cache<T>, items: T, until: int, gen: nat, now: int, empty: T)
    requires c.gen < 0x1_0000_0000_0000_0000
    ensures Lookup(Stored(c, items, until, c.gen), now) == if now < until then Some(items) else None
    ensures gen != c.gen ==> Stored(c, items, until, gen) == c
    ensures var d := Invalidated(c, empty);
      Lookup(d, now) == None && Stored(d, items, until, c.gen) == d && d.gen < 0x1_0000_0000_0000_0000
  {
  }
}

module PasteListCache {
  import opened Common
  import opened CacheSpec
  import opened Pastes

  datatype AdminPasteItem = AdminPasteItem(
    id: string, filename: string, title: string, createdAt: int, expiresAt: Option<int>,
    dataPolicy: string, size: nat, contentType: string, protected: bool)

  /** A new array with the same items: the result shares no storage with its argument. */
  method CloneAdminPasteItems(items: array<AdminPasteItem>) returns (copy: array<AdminPasteItem>)
    ensures fresh(copy) && copy[..] == items[..]
  {
    copy := new AdminPasteItem[items.Length](i requires 0 <= i < items.Length reads items => items[i]);
    assert copy[..] == items[..];
  }

  class ListCache {
    var listCache: array<AdminPasteItem>
    var listCacheUntil: Option<int>
    var listCacheGen: nat

    ghost function Abs(): Cache<seq<AdminPasteItem>>
      reads this, listCache
    {
      Cache(listCache[..], listCacheUntil, listCacheGen)
    }

    ghost predicate Valid()
      reads this
    {
      listCacheGen < GENERATIONS
    }

    constructor ()
      ensures Valid() && Abs() == Cache([], None, 0) && fresh(listCache)
    {
      listCache := new AdminPasteItem[0];
      listCacheUntil, listCacheGen := None, 0;
      new;
      assert listCache[..] == [];
    }

    /** The caller gets its own copy: writing to it cannot reach the cache. */
    method CachedPasteList(now: int) returns (items: array<AdminPasteItem>, ok: bool)
      requires Valid()
      ensures ok == Lookup(Abs(), now).Some?
      ensures fresh(items) && (ok ==> items[..] == Lookup(Abs(), now).value)
    {
      if listCacheUntil.None? || now >= listCacheUntil.value {
        items, ok := new AdminPasteItem[0], false;
      } else {
        items := CloneAdminPasteItems(listCache);
        ok := true;
      }
    }

    /** The cache keeps its own copy too: it never points at the array it was given. */
    method CachePasteList(items: array<AdminPasteItem>, until: int, generation: nat)
      requires Valid()
      modifies this
      ensures Valid() && Abs() == Stored(old(Abs()), items[..], until, generation)
      ensures fresh(listCache) || listCache == old(listCache)
    {
      if listCacheGen == generation {
        listCache := CloneAdminPasteItems(items);
        listCacheUntil := Some(until);
      }
    }

    method InvalidatePasteList()
      requires Valid()
      modifies this
      ensures Valid() && Abs() == Invalidated(old(Abs()), []) && fresh(listCache)
    {
      listCache := new AdminPasteItem[0];
      listCacheUntil := None;
      listCacheGen := (listCacheGen + 1) % GENERATIONS;
    }

    method PasteListGeneration() returns (generation: nat)
      ensures generation == Abs().gen
    {
      generation := listCacheGen;
    }
  }
}

module ListCacheProtocol {
  import opened Common
  import opened CacheSpec
  import opened Pastes

  type Id = string
  type Tid = nat

  /** A directory is its readable sidecars; a list is the records a scan collected, by id. */
  type Directory = map<Id, Metadata>

  datatype Pc =
    | Idle
    | Called                                  // ListPastes entered, cache not yet looked at
    | Missed                                  // lookup failed, generation not yet read
    | Generation(gen: nat, count: nat, base: nat)
    | Scanning(gen: nat, count: nat, base: nat, todo: set<Id>, items: Directory)

  /** `began` is the mark when the call began. */
  datatype Thread = Thread(pc: Pc, began: nat)

  datatype Answer = Answer(items: Directory, began: nat, hit: bool, age: int)

  /** `history` is the directory after every change, the last one current; `mark` is its index at the
      latest invalidation; `stamp` is the clock when the cached list was stored. */
  datatype State = State(
    cache: Cache<Directory>,
    stamp: int,
    history: seq<Directory>,
    mark: nat,
    invalidations: nat,
    threads: map<Tid, Thread>,
    answers: seq<Answer>)

  datatype Step =
    | Change(dir: Directory)                  // any operation writes or removes sidecars, or they expire
    | Invalidate
    | Call(t: Tid)
    | Look(t: Tid, now: int)
    | ReadGeneration(t: Tid)
    | ReadDir(t: Tid, names: set<Id>)
    | ReadEntry(t: Tid, id: Id)
    | Fail(t: Tid)                            // the directory cannot be read
    | Finish(t: Tid, now: int)

  function ThreadAt(s: State, t: Tid): Thread {
    if t in s.threads then s.threads[t] else Thread(Idle, 0)
  }

  function EntryOf(dir: Directory, id: Id): Option<Metadata> {
    if id in dir then Some(dir[id]) else None
  }

  function Now(s: State): Directory {
    if s.history == [] then map[] else s.history[|s.history| - 1]
  }

  /** The entry for `id` is the one the directory had at some moment no older than `from`. */
  ghost predicate Observed(history: seq<Directory>, items: Directory, id: Id, from: nat) {
    exists i :: from <= i < |history| && EntryOf(items, id) == EntryOf(history[i], id)
  }

  ghost predicate Reflects(history: seq<Directory>, items: Directory, from: nat) {
    forall id :: Observed(history, items, id, from)
  }

  /** Each name is listed or not as it was at some moment of the read: the listing is not atomic. */
  ghost predicate Listing(history: seq<Directory>, names: set<Id>, from: nat) {
    forall id :: id !in names ==> Observed(history, map[], id, from)
  }

  ghost predicate Enabled(s: State, step: Step) {
    match step
    case Change(_) => true
    case Invalidate => true
    case Call(t) => ThreadAt(s, t).pc.Idle?
    case Look(t, _) => ThreadAt(s, t).pc.Called?
    case ReadGeneration(t) => ThreadAt(s, t).pc.Missed?
    case ReadDir(t, names) => ThreadAt(s, t).pc.Generation? && Listing(s.history, names, ThreadAt(s, t).pc.base)
    case ReadEntry(t, id) => ThreadAt(s, t).pc.Scanning? && id in ThreadAt(s, t).pc.todo
    case Fail(t) => ThreadAt(s, t).pc.Generation?
    case Finish(t, _) => ThreadAt(s, t).pc.Scanning? && ThreadAt(s, t).pc.todo == {}
  }

  function Goto(s: State, t: Tid, pc: Pc): State {
    s.(threads := s.threads[t := ThreadAt(s, t).(pc := pc)])
  }

  function Next(s: State, step: Step): State {
    match step
    case Change(dir) => s.(history := s.history + [dir])
    case Invalidate =>
      s.(cache := Invalidated(s.cache, map[]), invalidations := s.invalidations + 1,
         mark := if s.history == [] then 0 else |s.history| - 1)
    case Call(t) => s.(threads := s.threads[t := Thread(Called, s.mark)])
    case Look(t, now) =>
      var found := Lookup(s.cache, now);
      if found.None? then Goto(s, t, Missed)
      else Goto(s.(answers := s.answers + [Answer(found.value, ThreadAt(s, t).began, true, now - s.stamp)]), t, Idle)
    case ReadGeneration(t) =>
      Goto(s, t, Generation(s.cache.gen, s.invalidations, if s.history == [] then 0 else |s.history| - 1))
    case ReadDir(t, names) =>
      var pc := ThreadAt(s, t).pc;
      if !pc.Generation? then s else Goto(s, t, Scanning(pc.gen, pc.count, pc.base, names, map[]))
    case ReadEntry(t, id) =>
      var pc := ThreadAt(s, t).pc;
      if !pc.Scanning? then s
      else
        Goto(s, t, pc.(todo := pc.todo - {id},
                       items := if id in Now(s) then pc.items[id := Now(s)[id]] else pc.items))
    case Fail(t) => Goto(s, t, Idle)
    case Finish(t, now) =>
      var pc := ThreadAt(s, t).pc;
      if !pc.Scanning? then s
      else
        Goto(s.(cache := Stored(s.cache, pc.items, now + TTL, pc.gen),
                stamp := if s.cache.gen == pc.gen then now else s.stamp,
                answers := s.answers + [Answer(pc.items, ThreadAt(s, t).began, false, 0)]),
             t, Idle)
  }

  ghost predicate Init(s: State) {
    && s.cache == Cache(map[], None, 0) && |s.history| == 1 && s.mark == 0 && s.invalidations == 0
    && s.threads == map[] && s.answers == []
  }

  // ---- The invariant ----

  ghost predicate ThreadOk(s: State, t: Tid)
    requires t in s.threads
  {
    var th := s.threads[t];
    && (!th.pc.Idle? ==> th.began <= s.mark)
    && (th.pc.Generation? || th.pc.Scanning? ==>
          && th.began <= th.pc.base < |s.history|
          && th.pc.count <= s.invalidations && th.pc.gen == th.pc.count % GENERATIONS
          && (th.pc.count == s.invalidations ==> s.mark <= th.pc.base))
    && (th.pc.Scanning? ==>
          && (forall id :: id !in th.pc.todo ==> Observed(s.history, th.pc.items, id, th.pc.base))
          && (forall id :: id in th.pc.todo ==> id !in th.pc.items))
  }

  ghost predicate AnswerOk(s: State, a: Answer) {
    Reflects(s.history, a.items, a.began) && (a.hit ==> a.age < TTL)
  }

  ghost predicate Inv(s: State) {
    && s.mark < |s.history|
    && s.cache.gen == s.invalidations % GENERATIONS
    && (forall t :: t in s.threads ==> ThreadOk(s, t))
    && (s.cache.until.Some? ==> s.cache.until.value == s.stamp + TTL && Reflects(s.history, s.cache.items, s.mark))
    && (forall i :: 0 <= i < |s.answers| ==> AnswerOk(s, s.answers[i]))
  }

  lemma ObservedStays(history: seq<Directory>, more: seq<Directory>, items: Directory, id: Id, from: nat, from': nat)
    requires Observed(history, items, id, from) && history <= more && from' <= from
    ensures Observed(more, items, id, from')
  {
    var i :| from <= i < |history| && EntryOf(items, id) == EntryOf(history[i], id);
    assert more[i] == history[i];
  }

  lemma ReflectsStays(history: seq<Directory>, more: seq<Directory>, items: Directory, from: nat, from': nat)
    requires Reflects(history, items, from) && history <= more && from' <= from
    ensures Reflects(more, items, from')
  {
    forall id ensures Observed(more, items, id, from') {
      ObservedStays(history, more, items, id, from, from');
    }
  }

  lemma ChangeInv(s: State, dir: Directory)
    requires Inv(s)
    ensures Inv(Next(s, Change(dir)))
  {
    var s' := Next(s, Change(dir));
    forall t | t in s'.threads ensures ThreadOk(s', t) {
      assert ThreadOk(s, t);
      var pc := s.threads[t].pc;
      if pc.Scanning? {
        forall id | id !in pc.todo ensures Observed(s'.history, pc.items, id, pc.base) {
          ObservedStays(s.history, s'.history, pc.items, id, pc.base, pc.base);
        }
      }
    }
    if s.cache.until.Some? { ReflectsStays(s.history, s'.history, s.cache.items, s.mark, s.mark); }
    forall i | 0 <= i < |s'.answers| ensures AnswerOk(s', s'.answers[i]) {
      assert AnswerOk(s, s.answers[i]);
      ReflectsStays(s.history, s'.history, s.answers[i].items, s.answers[i].began, s.answers[i].began);
    }
  }

  lemma InvalidateInv(s: State)
    requires Inv(s)
    ensures Inv(Next(s, Invalidate))
  {
    var s' := Next(s, Invalidate);
    assert s'.cache.gen == s'.invalidations % GENERATIONS by { ModSuccessor(s.invalidations); }
    forall t | t in s'.threads ensures ThreadOk(s', t) { assert ThreadOk(s, t); }
    forall i | 0 <= i < |s'.answers| ensures AnswerOk(s', s'.answers[i]) { assert AnswerOk(s, s.answers[i]); }
  }

  lemma ModSuccessor(n: nat)
    ensures (n % GENERATIONS + 1) % GENERATIONS == (n + 1) % GENERATIONS
  {
  }

  /** Steps of one call other than its end. */
  lemma CallInv(s: State, step: Step)
    requires Inv(s) && Enabled(s, step)
    requires step.Call? || step.Look? || step.ReadGeneration? || step.ReadDir? || step.Fail?
    ensures Inv(Next(s, step))
  {
    var s' := Next(s, step);
    var t := step.t;
    if t in s.threads { assert ThreadOk(s, t); }
    forall u | u in s'.threads ensures ThreadOk(s', u) {
      if u != t { assert ThreadOk(s, u); }
    }
    if step.Look? && Lookup(s.cache, step.now).Some? {
      ReflectsStays(s.history, s.history, s.cache.items, s.mark, s.threads[t].began);
    }
    forall i | 0 <= i < |s'.answers| ensures AnswerOk(s', s'.answers[i]) {
      if i < |s.answers| { assert AnswerOk(s, s.answers[i]); }
    }
  }

  lemma ReadEntryInv(s: State, t: Tid, id: Id)
    requires Inv(s) && Enabled(s, ReadEntry(t, id))
    ensures Inv(Next(s, ReadEntry(t, id)))
  {
    var s' := Next(s, ReadEntry(t, id));
    assert ThreadOk(s, t);
    var pc, pc' := s.threads[t].pc, s'.threads[t].pc;
    forall j | j !in pc'.todo ensures Observed(s'.history, pc'.items, j, pc.base) {
      if j == id {
        assert EntryOf(pc'.items, id) == EntryOf(s.history[|s.history| - 1], id);
      } else {
        assert Observed(s.history, pc.items, j, pc.base);
        var i :| pc.base <= i < |s.history| && EntryOf(pc.items, j) == EntryOf(s.history[i], j);
        assert EntryOf(pc'.items, j) == EntryOf(s'.history[i], j);
      }
    }
    assert ThreadOk(s', t);
    forall u | u in s'.threads ensures ThreadOk(s', u) {
      if u != t { assert ThreadOk(s, u); }
    }
    forall i | 0 <= i < |s'.answers| ensures AnswerOk(s', s'.answers[i]) { assert AnswerOk(s, s.answers[i]); }
  }

  /** The generation test: equal generations mean no invalidation came in between, so the list is
      at least as new as the latest mark. The counter must not have come full circle. */
  lemma FinishInv(s: State, t: Tid, now: int)
    requires Inv(s) && Enabled(s, Finish(t, now)) && s.invalidations < GENERATIONS
    ensures Inv(Next(s, Finish(t, now)))
  {
    var s' := Next(s, Finish(t, now));
    assert ThreadOk(s, t);
    var pc := s.threads[t].pc;
    assert Reflects(s.history, pc.items, pc.base);
    ReflectsStays(s.history, s.history, pc.items, pc.base, s.threads[t].began);
    if s.cache.gen == pc.gen {
      ReflectsStays(s.history, s.history, pc.items, pc.base, s.mark);
    }
    forall u | u in s'.threads ensures ThreadOk(s', u) {
      if u != t { assert ThreadOk(s, u); }
    }
    forall i | 0 <= i < |s'.answers| ensures AnswerOk(s', s'.answers[i]) {
      if i < |s.answers| { assert AnswerOk(s, s.answers[i]); }
    }
  }

  lemma StepInv(s: State, step: Step)
    requires Inv(s) && Enabled(s, step) && s.invalidations < GENERATIONS
    ensures Inv(Next(s, step))
  {
    match step
    case Change(dir) => ChangeInv(s, dir);
    case Invalidate => InvalidateInv(s);
    case ReadEntry(t, id) => ReadEntryInv(s, t, id);
    case Finish(t, now) => FinishInv(s, t, now);
    case _ => CallInv(s, step);
  }

  // ---- Whole runs ----

  ghost predicate Legal(s: State, steps: seq<Step>)
    decreases |steps|
  {
    steps == [] || (Enabled(s, steps[0]) && Legal(Next(s, steps[0]), steps[1..]))
  }

  function Run(s: State, steps: seq<Step>): State
    decreases |steps|
  {
    if steps == [] then s else Run(Next(s, steps[0]), steps[1..])
  }

  lemma {:induction false} RunInv(s: State, steps: seq<Step>)
    requires Inv(s) && Legal(s, steps) && s.invalidations + |steps| < GENERATIONS
    ensures Inv(Run(s, steps))
    decreases |steps|
  {
    if steps != [] {
      StepInv(s, steps[0]);
      RunInv(Next(s, steps[0]), steps[1..]);
    }
  }

  /** Every list ListPastes returns, from the cache or not, has for every id the entry the directory
      had at some moment no older than the latest invalidation before the call began; so it reflects
      every mutation whose invalidation had run. A cached list is less than five seconds old. */
  lemma ListsAreFresh(s: State, steps: seq<Step>, n: nat)
    requires Init(s) && Legal(s, steps) && |steps| < GENERATIONS
    requires n < |Run(s, steps).answers|
    ensures var r := Run(s, steps); var a := r.answers[n];
      && Reflects(r.history, a.items, a.began)
      && (a.hit ==> a.age < 5_000_000_000)
  {
    RunInv(s, steps);
    assert AnswerOk(Run(s, steps), Run(s, steps).answers[n]);
  }

  // ---- A call that nothing disturbs ----

  /** `steps` is a run from `s` to `r`. */
  ghost predicate Leads(s: State, steps: seq<Step>, r: State) {
    Legal(s, steps) && r == Run(s, steps)
  }

  lemma {:induction false} Chain(s: State, first: seq<Step>, q: State, second: seq<Step>, r: State)
    requires Leads(s, first, q) && Leads(q, second, r)
    ensures Leads(s, first + second, r)
    decreases |first|
  {
    if first == [] {
      assert first + second == second;
    } else {
      assert (first + second)[0] == first[0] && (first + second)[1..] == first[1..] + second;
      Chain(Next(s, first[0]), first[1..], q, second, r);
    }
  }

  lemma One(s: State, step: Step)
    requires Enabled(s, step)
    ensures Leads(s, [step], Next(s, step))
  {
    assert [step][1..] == [];
  }

  /** The entries still to read are read one by one. */
  lemma {:induction false} ReadsEntries(s: State, t: Tid) returns (steps: seq<Step>, r: State)
    requires t in s.threads && s.threads[t].pc.Scanning? && s.threads[t].pc.todo <= Now(s).Keys
    requires forall id :: id in Now(s) && id !in s.threads[t].pc.todo ==>
      EntryOf(s.threads[t].pc.items, id) == EntryOf(Now(s), id)
    requires forall id :: id in s.threads[t].pc.items ==> id in Now(s)
    requires forall id :: id in s.threads[t].pc.todo ==> id !in s.threads[t].pc.items
    ensures Leads(s, steps, r) && t in r.threads && r == s.(threads := s.threads[t := r.threads[t]])
    ensures r.threads[t] == s.threads[t].(pc := s.threads[t].pc.(todo := {}, items := Now(s)))
    decreases s.threads[t].pc.todo
  {
    var pc := s.threads[t].pc;
    if pc.todo == {} {
      steps, r := [], s;
      assert forall id :: id in Now(s) ==> EntryOf(pc.items, id) == EntryOf(Now(s), id);
      assert pc.items == Now(s);
    } else {
      var id :| id in pc.todo;
      One(s, ReadEntry(t, id));
      var s1 := Next(s, ReadEntry(t, id));
      var rest;
      rest, r := ReadsEntries(s1, t);
      Chain(s, [ReadEntry(t, id)], s1, rest, r);
      steps := [ReadEntry(t, id)] + rest;
    }
  }

  /** From the lookup that missed to the answer. */
  lemma ScansAlone(s: State, t: Tid, now: int) returns (steps: seq<Step>, r: State)
    requires t in s.threads && s.threads[t].pc.Missed? && s.history != []
    ensures Leads(s, steps, r) && r.history == s.history && r.mark == s.mark
    ensures r.answers == s.answers + [Answer(Now(s), s.threads[t].began, false, 0)]
    ensures r.threads == s.threads[t := s.threads[t].(pc := Idle)]
    ensures r.cache == Stored(s.cache, Now(s), now + TTL, s.cache.gen) && r.stamp == now
  {
    var names := Now(s).Keys;
    One(s, ReadGeneration(t));
    var s1 := Next(s, ReadGeneration(t));
    assert Listing(s1.history, names, s1.threads[t].pc.base) by {
      forall id | id !in names ensures Observed(s1.history, map[], id, s1.threads[t].pc.base) {
        assert EntryOf(map[], id) == EntryOf(s1.history[|s1.history| - 1], id);
      }
    }
    One(s1, ReadDir(t, names));
    var s2 := Next(s1, ReadDir(t, names));
    Chain(s, [ReadGeneration(t)], s1, [ReadDir(t, names)], s2);
    var third, s3 := ReadsEntries(s2, t);
    Chain(s, [ReadGeneration(t)] + [ReadDir(t, names)], s2, third, s3);
    One(s3, Finish(t, now));
    r := Next(s3, Finish(t, now));
    steps := [ReadGeneration(t)] + [ReadDir(t, names)] + third + [Finish(t, now)];
    Chain(s, [ReadGeneration(t)] + [ReadDir(t, names)] + third, s3, [Finish(t, now)], r);
    assert r.threads == s.threads[t := s.threads[t].(pc := Idle)];
  }

  /** A call that finds nothing in the cache lists exactly the directory, and until five seconds later, or an
      invalidation, the next call gets that list from the cache. */
  lemma ListAlone(s: State, t: Tid, now: int) returns (steps: seq<Step>, r: State)
    requires s.history != [] && ThreadAt(s, t).pc.Idle? && Lookup(s.cache, now).None?
    ensures Leads(s, steps, r) && r.history == s.history && r.mark == s.mark
    ensures r.answers == s.answers + [Answer(Now(s), s.mark, false, 0)]
    ensures forall later ::
      Lookup(r.cache, later) == if later < now + 5_000_000_000 then Some(Now(s)) else None
  {
    var s1 := Next(s, Call(t));
    One(s, Call(t));
    var s2 := Next(s1, Look(t, now));
    One(s1, Look(t, now));
    Chain(s, [Call(t)], s1, [Look(t, now)], s2);
    var rest;
    rest, r := ScansAlone(s2, t, now);
    Chain(s, [Call(t)] + [Look(t, now)], s2, rest, r);
    steps := [Call(t)] + [Look(t, now)] + rest;
  }

  /** A call that finds a list in the cache answers with it and reads no directory. */
  lemma HitAlone(s: State, t: Tid, now: int) returns (r: State)
    requires ThreadAt(s, t).pc.Idle? && Lookup(s.cache, now).Some?
    ensures Leads(s, [Call(t), Look(t, now)], r) && r.history == s.history && r.cache == s.cache
    ensures r.answers == s.answers + [Answer(Lookup(s.cache, now).value, s.mark, true, now - s.stamp)]
  {
    var s1 := Next(s, Call(t));
    One(s, Call(t));
    r := Next(s1, Look(t, now));
    One(s1, Look(t, now));
    Chain(s, [Call(t)], s1, [Look(t, now)], r);
    assert [Call(t)] + [Look(t, now)] == [Call(t), Look(t, now)];
  }
}
