/** The sliding-window limiter for failed logins. Times are nanoseconds. */
module AuthLimiter {
  import opened Common
  import opened Text
  import P = Pastes

  const MAX_ENTRIES := 10_000  // maxAuthLimiterEntries

  type Times = seq<int>

  datatype Entry = Entry(attempts: Times, lastSeen: int)

  type Entries = map<string, Entry>

  // ---- What one operation does to the entries ----

  /** The attempts after the cutoff, in order. */
  function Survivors(attempts: Times, cutoff: int): (r: Times)
    ensures |r| <= |attempts|
  {
    if attempts == [] then []
    else if attempts[0] > cutoff then [attempts[0]] + Survivors(attempts[1..], cutoff)
    else Survivors(attempts[1..], cutoff)
  }

  function AttemptsOf(e: Entries, key: string): Times {
    if key in e then e[key].attempts else []
  }

  function Pruned(e: Entries, key: string, now: int, window: int): Entries {
    if AttemptsOf(e, key) == [] then e
    else
      var keep := Survivors(e[key].attempts, now - window);
      if keep == [] then e - {key} else e[key := Entry(keep, now)]
  }

  /** The global prune looks at the latest attempt only. */
  predicate Stale(entry: Entry, cutoff: int) {
    entry.attempts == [] || entry.attempts[|entry.attempts| - 1] <= cutoff
  }

  function PrunedAll(e: Entries, cutoff: int): Entries {
    map k | k in e && !Stale(e[k], cutoff) :: e[k]
  }

  /** No entry was seen longer ago. */
  predicate IsOldest(e: Entries, victim: string) {
    victim in e && forall k :: k in e ==> e[victim].lastSeen <= e[k].lastSeen
  }

  /** The entries among which a failure of `key` is recorded: some may have to make room. */
  ghost predicate MakesRoom(e: Entries, key: string, now: int, window: int, room: Entries, victim: Option<string>) {
    var p := Pruned(e, key, now, window);
    var q := PrunedAll(p, now - window);
    if key in p || |p| < MAX_ENTRIES then room == p && victim == None
    else if |q| < MAX_ENTRIES then room == q && victim == None
    else victim.Some? && IsOldest(q, victim.value) && room == q - {victim.value}
  }

  ghost predicate Records(e: Entries, key: string, now: int, window: int, e': Entries, victim: Option<string>) {
    exists room :: MakesRoom(e, key, now, window, room, victim) &&
                   e' == room[key := Entry(Survivors(AttemptsOf(e, key), now - window) + [now], now)]
  }

  /** The wait a caller is told, or None when it may try. */
  function Wait(e: Entries, key: string, now: int, window: int, limit: int): Option<int> {
    var attempts := Survivors(AttemptsOf(e, key), now - window);
    if |attempts| < limit || attempts == [] then None else Some(attempts[0] + window - now)
  }

  lemma {:induction false} SurvivorsAreLater(attempts: Times, cutoff: int)
    ensures forall i :: 0 <= i < |Survivors(attempts, cutoff)| ==> Survivors(attempts, cutoff)[i] > cutoff
  {
    if attempts != [] {
      SurvivorsAreLater(attempts[1..], cutoff);
    }
  }

  /** A key made of white space only, which the callers of the limiter skip. */
  predicate Blank(key: string) {
    forall i :: 0 <= i < |key| ==> IsSpace(key[i])
  }

  /** That is, the keys of which trimming leaves nothing. */
  lemma BlankIff(key: string)
    ensures Blank(key) <==> Trim(key) == ""
  {
    if Blank(key) {
      TrimIgnoresSpace(key, "", "");
      assert key + "" + "" == key;
    } else {
      var i :| 0 <= i < |key| && !IsSpace(key[i]);
      TrimKeeps(key, i);
    }
  }

  // ---- Filters ----

  lemma {:induction false} SurvivorsCompose(attempts: Times, c: int, d: int)
    requires c <= d
    ensures Survivors(Survivors(attempts, c), d) == Survivors(attempts, d)
  {
    if attempts != [] {
      SurvivorsCompose(attempts[1..], c, d);
      if attempts[0] > c {
        assert Survivors(attempts, c)[1..] == Survivors(attempts[1..], c);
      }
    }
  }

  lemma {:induction false} SurvivorsAppend(a: Times, b: Times, c: int)
    ensures Survivors(a + b, c) == Survivors(a, c) + Survivors(b, c)
  {
    if a == [] {
      assert a + b == b;
    } else {
      assert (a + b)[1..] == a[1..] + b;
      SurvivorsAppend(a[1..], b, c);
    }
  }

  lemma PrunedAttempts(e: Entries, pruned: string, key: string, now: int, window: int)
    ensures AttemptsOf(Pruned(e, pruned, now, window), key) ==
      if key == pruned then Survivors(AttemptsOf(e, key), now - window) else AttemptsOf(e, key)
  {
  }

  lemma PruneKeepsWait(e: Entries, pruned: string, key: string, now: int, window: int, limit: int)
    ensures Wait(Pruned(e, pruned, now, window), key, now, window, limit) == Wait(e, key, now, window, limit)
  {
    SurvivorsCompose(AttemptsOf(e, pruned), now - window, now - window);
  }

  ghost predicate Within(e: Entries, limit: int) {
    forall k :: |AttemptsOf(e, k)| <= limit
  }

  ghost predicate SameWaits(e: Entries, e': Entries, now: int, window: int, limit: int) {
    forall k :: Wait(e', k, now, window, limit) == Wait(e, k, now, window, limit)
  }

  lemma PruneKeepsWaits(e: Entries, e': Entries, pruned: string, now: int, window: int, limit: int)
    requires SameWaits(e, e', now, window, limit)
    ensures SameWaits(e, Pruned(e', pruned, now, window), now, window, limit)
  {
    forall k ensures Wait(Pruned(e', pruned, now, window), k, now, window, limit) == Wait(e, k, now, window, limit) {
      PruneKeepsWait(e', pruned, k, now, window, limit);
    }
  }

  predicate Sorted(a: Times) {
    forall i, j :: 0 <= i < j < |a| ==> a[i] <= a[j]
  }

  /** Of a sorted list a filter keeps a suffix. */
  lemma {:induction false} SurvivorsOfSorted(a: Times, c: int) returns (n: nat)
    requires Sorted(a)
    ensures n <= |a| && Survivors(a, c) == a[n..]
    ensures forall i :: 0 <= i < |a| ==> (a[i] > c <==> i >= n)
  {
    if a == [] {
      n := 0;
    } else if a[0] > c {
      n := 0;
      AllSurvive(a, c);
    } else {
      var m := SurvivorsOfSorted(a[1..], c);
      n := m + 1;
      assert forall i :: 1 <= i < |a| ==> a[i] == a[1..][i - 1];
    }
  }

  lemma {:induction false} AllSurvive(a: Times, c: int)
    requires forall i :: 0 <= i < |a| ==> a[i] > c
    ensures Survivors(a, c) == a
  {
    if a != [] {
      AllSurvive(a[1..], c);
      assert a == [a[0]] + a[1..];
    }
  }

  /** So the global prune, looking at last elements only, drops exactly the keys a prune of the key
      itself would empty. */
  lemma StaleIffNothingSurvives(entry: Entry, cutoff: int)
    requires Sorted(entry.attempts)
    ensures Stale(entry, cutoff) <==> Survivors(entry.attempts, cutoff) == []
  {
    var n := SurvivorsOfSorted(entry.attempts, cutoff);
  }

  // ---- Refinement of a plain failure log ----

  datatype Operation =
    | Check(key: string, now: int)
    | Fail(key: string, now: int, victim: Option<string>)  // the key that had to make room, if any
    | Forget(key: string)

  /** The failures of each key since it was last cleared or evicted, never pruned. */
  type Log = map<string, Times>

  function Logged(log: Log, key: string): Times {
    if key in log then log[key] else []
  }

  function LogAfter(log: Log, op: Operation): Log {
    match op
    case Check(_, _) => log
    case Fail(key, now, victim) =>
      var room := if victim.Some? then log - {victim.value} else log;
      room[key := Logged(log, key) + [now]]
    case Forget(key) => log - {key}
  }

  ghost predicate Happens(e: Entries, op: Operation, window: int, e': Entries) {
    match op
    case Check(key, now) => e' == Pruned(e, key, now, window)
    case Fail(key, now, victim) => !Blank(key) && Records(e, key, now, window, e', victim)
    case Forget(key) => e' == e - {key}
  }

  function ClockAfter(clock: int, op: Operation): int {
    if op.Forget? then clock else op.now
  }

  /** Inside the window the entries say what the log says, key by key. */
  ghost predicate Agrees(a: Times, l: Times, cutoff: int) {
    Sorted(a) && Sorted(l) && Survivors(a, cutoff) == Survivors(l, cutoff)
  }

  ghost predicate UpTo(a: Times, clock: int) {
    forall i :: 0 <= i < |a| ==> a[i] <= clock
  }

  ghost predicate Refines(e: Entries, log: Log, clock: int, window: int) {
    forall k ::
      && Agrees(AttemptsOf(e, k), Logged(log, k), clock - window)
      && UpTo(AttemptsOf(e, k), clock) && UpTo(Logged(log, k), clock)
  }

  lemma AgreesLater(a: Times, l: Times, c: int, d: int)
    requires Agrees(a, l, c) && c <= d
    ensures Agrees(a, l, d)
  {
    SurvivorsCompose(a, c, d);
    SurvivorsCompose(l, c, d);
  }

  lemma SurvivorsSorted(a: Times, c: int, clock: int)
    requires Sorted(a) && UpTo(a, clock)
    ensures Sorted(Survivors(a, c)) && UpTo(Survivors(a, c), clock)
  {
    var n := SurvivorsOfSorted(a, c);
  }

  lemma PruneAgrees(a: Times, l: Times, clock: int, now: int, window: int)
    requires Agrees(a, l, clock - window) && UpTo(a, clock) && UpTo(l, clock) && clock <= now
    ensures Agrees(a, l, now - window) && Agrees(Survivors(a, now - window), l, now - window)
    ensures UpTo(a, now) && UpTo(Survivors(a, now - window), now) && UpTo(l, now)
  {
    AgreesLater(a, l, clock - window, now - window);
    SurvivorsSorted(a, now - window, clock);
    SurvivorsCompose(a, now - window, now - window);
  }

  lemma PruneRefines(e: Entries, log: Log, clock: int, window: int, key: string, now: int)
    requires Refines(e, log, clock, window) && clock <= now
    ensures Refines(Pruned(e, key, now, window), log, now, window)
  {
    var e' := Pruned(e, key, now, window);
    forall k
      ensures Agrees(AttemptsOf(e', k), Logged(log, k), now - window)
      ensures UpTo(AttemptsOf(e', k), now) && UpTo(Logged(log, k), now)
    {
      assert Agrees(AttemptsOf(e, k), Logged(log, k), clock - window);
      PrunedAttempts(e, key, k, now, window);
      PruneAgrees(AttemptsOf(e, k), Logged(log, k), clock, now, window);
    }
  }

  lemma PruneAllRefines(e: Entries, log: Log, now: int, window: int)
    requires Refines(e, log, now, window)
    ensures Refines(PrunedAll(e, now - window), log, now, window)
  {
    forall k
      ensures Agrees(AttemptsOf(PrunedAll(e, now - window), k), Logged(log, k), now - window)
      ensures UpTo(AttemptsOf(PrunedAll(e, now - window), k), now) && UpTo(Logged(log, k), now)
    {
      assert Agrees(AttemptsOf(e, k), Logged(log, k), now - window);
      if k in e {
        StaleIffNothingSurvives(e[k], now - window);
      }
    }
  }

  function LogRoom(log: Log, victim: Option<string>): Log {
    if victim.Some? then log - {victim.value} else log
  }

  /** Making room keeps the entries in step with the log. */
  lemma RoomRefines(e: Entries, log: Log, clock: int, window: int, key: string, now: int, room: Entries,
                    victim: Option<string>)
    requires Refines(e, log, clock, window) && clock <= now && MakesRoom(e, key, now, window, room, victim)
    ensures Refines(room, LogRoom(log, victim), now, window)
  {
    PruneRefines(e, log, clock, window, key, now);
    var p := Pruned(e, key, now, window);
    PruneAllRefines(p, log, now, window);
    if victim.Some? {
      ForgetRefines(PrunedAll(p, now - window), log, now, window, victim.value);
    }
  }

  lemma ForgetRefines(e: Entries, log: Log, clock: int, window: int, key: string)
    requires Refines(e, log, clock, window)
    ensures Refines(e - {key}, log - {key}, clock, window)
  {
    forall k
      ensures Agrees(AttemptsOf(e - {key}, k), Logged(log - {key}, k), clock - window)
      ensures UpTo(AttemptsOf(e - {key}, k), clock) && UpTo(Logged(log - {key}, k), clock)
    {
      assert Agrees(AttemptsOf(e, k), Logged(log, k), clock - window);
    }
  }

  lemma OthersAsInRoom(room: Entries, logRoom: Log, key: string, entry: Entry, times: Times, k: string)
    requires k != key
    ensures AttemptsOf(room[key := entry], k) == AttemptsOf(room, k)
    ensures Logged(logRoom[key := times], k) == Logged(logRoom, k)
  {
  }

  lemma FailRefines(e: Entries, log: Log, clock: int, window: int, key: string, now: int, victim: Option<string>,
                    e': Entries)
    requires window > 0 && Refines(e, log, clock, window) && clock <= now
    requires Records(e, key, now, window, e', victim)
    ensures Refines(e', LogAfter(log, Fail(key, now, victim)), now, window)
  {
    var room :| MakesRoom(e, key, now, window, room, victim) &&
                e' == room[key := Entry(Survivors(AttemptsOf(e, key), now - window) + [now], now)];
    RoomRefines(e, log, clock, window, key, now, room, victim);
    assert Agrees(AttemptsOf(e, key), Logged(log, key), clock - window);
    FailAgrees(AttemptsOf(e, key), Logged(log, key), clock, now, window);
    var log' := LogAfter(log, Fail(key, now, victim));
    assert log' == LogRoom(log, victim)[key := Logged(log, key) + [now]];
    forall k | k != key
      ensures Agrees(AttemptsOf(e', k), Logged(log', k), now - window)
      ensures UpTo(AttemptsOf(e', k), now) && UpTo(Logged(log', k), now)
    {
      assert Agrees(AttemptsOf(room, k), Logged(LogRoom(log, victim), k), now - window);
      OthersAsInRoom(room, LogRoom(log, victim), key, e'[key], Logged(log, key) + [now], k);
    }
  }

  lemma AppendAgrees(a: Times, l: Times, now: int, cutoff: int)
    requires Agrees(a, l, cutoff) && UpTo(a, now) && UpTo(l, now)
    ensures Agrees(a + [now], l + [now], cutoff) && UpTo(a + [now], now) && UpTo(l + [now], now)
  {
    SurvivorsAppend(a, [now], cutoff);
    SurvivorsAppend(l, [now], cutoff);
  }

  lemma FailAgrees(a: Times, l: Times, clock: int, now: int, window: int)
    requires Agrees(a, l, clock - window) && UpTo(a, clock) && UpTo(l, clock) && clock <= now
    ensures Agrees(Survivors(a, now - window) + [now], l + [now], now - window)
    ensures UpTo(Survivors(a, now - window) + [now], now) && UpTo(l + [now], now)
  {
    PruneAgrees(a, l, clock, now, window);
    AppendAgrees(Survivors(a, now - window), l, now, now - window);
  }

  lemma OperationRefines(e: Entries, log: Log, clock: int, window: int, op: Operation, e': Entries)
    requires window > 0 && Refines(e, log, clock, window) && Happens(e, op, window, e') &&
      clock <= ClockAfter(clock, op)
    ensures Refines(e', LogAfter(log, op), ClockAfter(clock, op), window)
  {
    match op
    case Check(key, now) => PruneRefines(e, log, clock, window, key, now);
    case Fail(key, now, victim) => FailRefines(e, log, clock, window, key, now, victim, e');
    case Forget(key) => ForgetRefines(e, log, clock, window, key);
  }

  /** A run from the empty limiter: the entries after each operation, the log, the clock. */
  ghost predicate Run(states: seq<Entries>, logs: seq<Log>, clocks: seq<int>, ops: seq<Operation>, window: int) {
    && |states| == |logs| == |clocks| == |ops| + 1
    && states[0] == map[] && logs[0] == map[]
    && forall i :: 0 <= i < |ops| ==>
         && Happens(states[i], ops[i], window, states[i + 1])
         && logs[i + 1] == LogAfter(logs[i], ops[i])
         && clocks[i + 1] == ClockAfter(clocks[i], ops[i]) && clocks[i] <= clocks[i + 1]
  }

  lemma {:induction false} RunRefines(states: seq<Entries>, logs: seq<Log>, clocks: seq<int>, ops: seq<Operation>,
                                      window: int, n: nat)
    requires window > 0 && Run(states, logs, clocks, ops, window) && n <= |ops|
    ensures Refines(states[n], logs[n], clocks[n], window)
  {
    if n > 0 {
      RunRefines(states, logs, clocks, ops, window, n - 1);
      var i := n - 1;
      assert Happens(states[i], ops[i], window, states[i + 1]) && clocks[i + 1] == ClockAfter(clocks[i], ops[i]);
      OperationRefines(states[n - 1], logs[n - 1], clocks[n - 1], window, ops[n - 1], states[n]);
    }
  }

  /** The failures of `key` after `cutoff` among the operations since the key was last forgotten, or last
      had to make room. */
  function Failures(ops: seq<Operation>, key: string, cutoff: int): nat {
    if ops == [] then 0
    else
      var front, last := ops[..|ops| - 1], ops[|ops| - 1];
      match last
      case Check(_, _) => Failures(front, key, cutoff)
      case Forget(k) => if k == key then 0 else Failures(front, key, cutoff)
      case Fail(k, now, victim) =>
        (if victim == Some(key) then 0 else Failures(front, key, cutoff)) + if k == key && now > cutoff then 1 else 0
  }

  lemma {:induction false} FailuresAreLogged(states: seq<Entries>, logs: seq<Log>, clocks: seq<int>,
                                             ops: seq<Operation>, window: int, key: string, cutoff: int, n: nat)
    requires window > 0 && Run(states, logs, clocks, ops, window) && n <= |ops|
    ensures |Survivors(Logged(logs[n], key), cutoff)| == Failures(ops[..n], key, cutoff)
  {
    if n > 0 {
      FailuresAreLogged(states, logs, clocks, ops, window, key, cutoff, n - 1);
      assert ops[..n][..n - 1] == ops[..n - 1] && ops[..n][n - 1] == ops[n - 1];
      var i := n - 1;
      assert logs[i + 1] == LogAfter(logs[i], ops[i]) && Happens(states[i], ops[i], window, states[i + 1]);
      OneFailureMore(logs[i], ops[i], key, cutoff);
      if ops[i].Fail? && ops[i].victim.Some? {
        EvictsOldestWhenFull(states[i], ops[i], window, states[i + 1]);
      }
    }
  }

  lemma OneFailureMore(log: Log, op: Operation, key: string, cutoff: int)
    requires op.Fail? ==> op.victim != Some(op.key)
    ensures |Survivors(Logged(LogAfter(log, op), key), cutoff)| ==
      match op
      case Check(_, _) => |Survivors(Logged(log, key), cutoff)|
      case Forget(k) => if k == key then 0 else |Survivors(Logged(log, key), cutoff)|
      case Fail(k, now, victim) =>
        (if victim == Some(key) then 0 else |Survivors(Logged(log, key), cutoff)|) +
        if k == key && now > cutoff then 1 else 0
  {
    if op.Fail? && op.key == key {
      SurvivorsAppend(Logged(log, key), [op.now], cutoff);
      assert [op.now][1..] == [];
    }
  }

  lemma FewerEntries(e: Entries, was: Entries)
    requires e.Keys <= was.Keys
    ensures |e| <= |was|
  {
    assert was.Keys == e.Keys + (was.Keys - e.Keys);
    assert |was.Keys| == |e.Keys| + |was.Keys - e.Keys|;
    assert |e| == |e.Keys| && |was| == |was.Keys|;
  }

  /** A check or a failure of a key is when it was last seen, if it is kept; a check touches no other key. */
  lemma LastSeenIs(e: Entries, op: Operation, window: int, e': Entries)
    requires Happens(e, op, window, e') && !op.Forget?
    ensures op.key in e' && (op.Fail? || AttemptsOf(e, op.key) != []) ==> e'[op.key].lastSeen == op.now
    ensures op.Check? ==> forall k :: k != op.key ==> (k in e' <==> k in e) && (k in e ==> e'[k] == e[k])
  {
  }

  /** A key is made to go only for another one, only when ten thousand keys have failed inside the window,
      and only if none of those was seen longer ago. */
  lemma EvictsOldestWhenFull(e: Entries, op: Operation, window: int, e': Entries)
    requires window > 0 && op.Fail? && Happens(e, op, window, e') && op.victim.Some?
    ensures op.victim != Some(op.key) && op.victim.value in e
    ensures |e| >= 10_000 && Survivors(AttemptsOf(e, op.key), op.now - window) == []
    ensures forall k :: k in e && k != op.key && !Stale(e[k], op.now - window) ==>
      e[op.victim.value].lastSeen <= e[k].lastSeen
  {
    var p := Pruned(e, op.key, op.now, window);
    FewerEntries(p, e);
    FewerEntries(PrunedAll(p, op.now - window), p);
    assert forall k :: k in e && k != op.key ==> k in p && p[k] == e[k];
    assert forall k :: k in p && !Stale(p[k], op.now - window) ==> k in PrunedAll(p, op.now - window);
  }

  lemma BlockedByLog(states: seq<Entries>, logs: seq<Log>, clocks: seq<int>, ops: seq<Operation>,
                     window: int, limit: int, key: string, now: int)
    requires window > 0 && limit > 0 && Run(states, logs, clocks, ops, window) && clocks[|ops|] <= now
    ensures var blocked := Wait(states[|ops|], key, now, window, limit).Some?;
      blocked <==> |Survivors(Logged(logs[|ops|], key), now - window)| >= limit
  {
    RunRefines(states, logs, clocks, ops, window, |ops|);
    var a, l := AttemptsOf(states[|ops|], key), Logged(logs[|ops|], key);
    assert Agrees(a, l, clocks[|ops|] - window);
    AgreesLater(a, l, clocks[|ops|] - window, now - window);
  }

  /** After any run with clocks that do not go back, the limiter blocks a key exactly when its failures
      since it was last forgotten or evicted and inside the window number at least the limit. */
  lemma BlocksExactly(states: seq<Entries>, logs: seq<Log>, clocks: seq<int>, ops: seq<Operation>,
                      window: int, limit: int, key: string, now: int)
    requires window > 0 && limit > 0 && Run(states, logs, clocks, ops, window) && clocks[|ops|] <= now
    ensures var blocked := Wait(states[|ops|], key, now, window, limit).Some?;
      blocked <==> Failures(ops, key, now - window) >= limit
  {
    BlockedByLog(states, logs, clocks, ops, window, limit, key, now);
    FailuresAreLogged(states, logs, clocks, ops, window, key, now - window, |ops|);
    assert ops[..|ops|] == ops;
  }

  // ---- The announced wait ----

  lemma WaitIsPositive(e: Entries, key: string, now: int, window: int, limit: int)
    ensures Wait(e, key, now, window, limit).Some? ==> Wait(e, key, now, window, limit).value > 0
  {
    SurvivorsAreLater(AttemptsOf(e, key), now - window);
  }

  /** At a later time `t` a key is still blocked if and only if its limit-th latest attempt is still
      inside the window. */
  lemma BlockedUntil(e: Entries, key: string, t: int, window: int, limit: int)
    requires limit > 0 && Sorted(AttemptsOf(e, key))
    ensures var a := AttemptsOf(e, key);
      Wait(e, key, t, window, limit).Some? <==> |a| >= limit && a[|a| - limit] + window > t
  {
    var a := AttemptsOf(e, key);
    var n := SurvivorsOfSorted(a, t - window);
  }

  /** A key that is free stays free until another failure is recorded. */
  lemma FreeLater(e: Entries, key: string, n1: int, n2: int, window: int, limit: int)
    requires n1 <= n2 && Wait(e, key, n1, window, limit).None?
    ensures Wait(e, key, n2, window, limit).None?
  {
    SurvivorsCompose(AttemptsOf(e, key), n1 - window, n2 - window);
  }

  /** With at most `limit` attempts kept the announced wait is exact: blocked until then, free then. */
  lemma WaitIsExact(e: Entries, key: string, now: int, t: int, window: int, limit: int)
    requires limit > 0 && window > 0 && Sorted(AttemptsOf(e, key)) && |AttemptsOf(e, key)| <= limit
    requires Wait(e, key, now, window, limit).Some? && now <= t
    ensures 0 < Wait(e, key, now, window, limit).value
    ensures Wait(e, key, t, window, limit).Some? <==> t < now + Wait(e, key, now, window, limit).value
  {
    var n := SurvivorsOfSorted(AttemptsOf(e, key), now - window);
    BlockedUntil(e, key, t, window, limit);
  }

  /** Recording only failures of keys that are not blocked never keeps more than `limit` attempts. */
  lemma RecordKeepsLimit(e: Entries, key: string, now: int, window: int, limit: int, e': Entries,
                         victim: Option<string>)
    requires limit > 0 && Records(e, key, now, window, e', victim)
    requires Wait(e, key, now, window, limit).None? && Within(e, limit)
    ensures Within(e', limit)
  {
    var room :| MakesRoom(e, key, now, window, room, victim) &&
                e' == room[key := Entry(Survivors(AttemptsOf(e, key), now - window) + [now], now)];
    forall k ensures |AttemptsOf(e', k)| <= limit {
      PrunedAttempts(e, key, k, now, window);
      assert |AttemptsOf(e, k)| <= limit;
    }
  }

  /** Recording for one key never blocks another. */
  lemma RecordKeepsFree(e: Entries, key: string, now: int, window: int, limit: int, e': Entries,
                        victim: Option<string>, other: string)
    requires limit > 0 && Records(e, key, now, window, e', victim) && other != key
    requires Wait(e, other, now, window, limit).None?
    ensures Wait(e', other, now, window, limit).None?
  {
    var room :| MakesRoom(e, key, now, window, room, victim) &&
                e' == room[key := Entry(Survivors(AttemptsOf(e, key), now - window) + [now], now)];
    PrunedAttempts(e, key, other, now, window);
    assert AttemptsOf(e', other) == AttemptsOf(e, other) || AttemptsOf(e', other) == [];
  }

  /** Every failure was recorded at a moment when its key was free. */
  ghost predicate FreeFails(states: seq<Entries>, ops: seq<Operation>, window: int, limit: int)
    requires |ops| <= |states|
  {
    forall i :: 0 <= i < |ops| && ops[i].Fail? ==> Wait(states[i], ops[i].key, ops[i].now, window, limit).None?
  }

  lemma OperationKeepsLimit(e: Entries, op: Operation, window: int, limit: int, e': Entries)
    requires limit > 0 && Happens(e, op, window, e') && Within(e, limit)
    requires op.Fail? ==> Wait(e, op.key, op.now, window, limit).None?
    ensures Within(e', limit)
  {
    if op.Fail? {
      RecordKeepsLimit(e, op.key, op.now, window, limit, e', op.victim);
    } else {
      forall k ensures |AttemptsOf(e', k)| <= limit {
        assert |AttemptsOf(e, k)| <= limit;
      }
    }
  }

  lemma {:induction false} PerformsKeepsLimit(e: Entries, states: seq<Entries>, ops: seq<Operation>, window: int,
                                              limit: int, e': Entries, n: nat)
    requires limit > 0 && Performs(e, states, ops, window, e') && FreeFails(states, ops, window, limit)
    requires Within(e, limit) && n <= |ops|
    ensures Within(states[n], limit)
  {
    if n > 0 {
      PerformsKeepsLimit(e, states, ops, window, limit, e', n - 1);
      OperationKeepsLimit(states[n - 1], ops[n - 1], window, limit, states[n]);
    }
  }

  lemma FreeFailsFail(states: seq<Entries>, ops: seq<Operation>, key: string, now: int, victim: Option<string>,
                      window: int, limit: int, e': Entries)
    requires |states| == |ops| + 1 && FreeFails(states, ops, window, limit)
    requires Wait(states[|ops|], key, now, window, limit).None?
    ensures FreeFails(states + [e'], ops + [Fail(key, now, victim)], window, limit)
  {
  }

  /** Then no key ever has more than `limit` attempts, in any run from the empty limiter. */
  lemma RunKeepsLimit(states: seq<Entries>, logs: seq<Log>, clocks: seq<int>, ops: seq<Operation>, window: int,
                      limit: int, n: nat)
    requires limit > 0 && Run(states, logs, clocks, ops, window) && FreeFails(states, ops, window, limit) && n <= |ops|
    ensures Within(states[n], limit)
  {
    PerformsKeepsLimit(states[0], states, ops, window, limit, states[|ops|], n);
  }

  /** And the wait announced after any such run is exact: positive, blocked at every moment before it
      is over, free from then on. */
  lemma WaitExactOverRuns(states: seq<Entries>, logs: seq<Log>, clocks: seq<int>, ops: seq<Operation>,
                          window: int, limit: int, key: string, now: int, t: int)
    requires window > 0 && limit > 0 && Run(states, logs, clocks, ops, window) && FreeFails(states, ops, window, limit)
    requires Wait(states[|ops|], key, now, window, limit).Some? && now <= t
    ensures var wait := Wait(states[|ops|], key, now, window, limit).value;
      wait > 0 && (Wait(states[|ops|], key, t, window, limit).Some? <==> t < now + wait)
  {
    RunRefines(states, logs, clocks, ops, window, |ops|);
    RunKeepsLimit(states, logs, clocks, ops, window, limit, |ops|);
    assert Agrees(AttemptsOf(states[|ops|], key), Logged(logs[|ops|], key), clocks[|ops|] - window);
    assert |AttemptsOf(states[|ops|], key)| <= limit;
    WaitIsExact(states[|ops|], key, now, t, window, limit);
  }

  lemma RunNext(states: seq<Entries>, logs: seq<Log>, clocks: seq<int>, ops: seq<Operation>, window: int,
                op: Operation, e': Entries)
    requires Run(states, logs, clocks, ops, window) && Happens(states[|ops|], op, window, e')
    requires clocks[|ops|] <= ClockAfter(clocks[|ops|], op)
    ensures Run(states + [e'], logs + [LogAfter(logs[|ops|], op)], clocks + [ClockAfter(clocks[|ops|], op)],
      ops + [op], window)
  {
  }

  lemma PerformsTail(e: Entries, states: seq<Entries>, ops: seq<Operation>, window: int, e': Entries)
    requires Performs(e, states, ops, window, e') && ops != []
    ensures Happens(e, ops[0], window, states[1]) && Performs(states[1], states[1..], ops[1..], window, e')
  {
    assert forall i :: 0 <= i < |ops[1..]| ==> ops[1..][i] == ops[i + 1] && states[1..][i] == states[i + 1];
  }

  /** Operations that go on from the end of a run make it longer. */
  lemma {:induction false} RunExtends(states: seq<Entries>, logs: seq<Log>, clocks: seq<int>, ops: seq<Operation>,
                                      window: int,
                                      more: seq<Entries>, later: seq<Operation>, e': Entries, from: int)
    returns (logs': seq<Log>, clocks': seq<int>)
    requires Run(states, logs, clocks, ops, window) && clocks[|ops|] <= from
    requires Performs(states[|ops|], more, later, window, e') && InOrder(later, from)
    ensures Run(states + more[1..], logs', clocks', ops + later, window)
    ensures (states + more[1..])[|ops + later|] == e'
    ensures clocks'[|ops + later|] <= LastMoment(later, from)
    decreases |later|
  {
    if later == [] {
      logs', clocks' := logs, clocks;
      assert states + more[1..] == states && ops + later == ops;
    } else {
      var op := later[0];
      PerformsTail(states[|ops|], more, later, window, e');
      RunNext(states, logs, clocks, ops, window, op, more[1]);
      logs', clocks' := RunExtends(states + [more[1]], logs + [LogAfter(logs[|ops|], op)],
        clocks + [ClockAfter(clocks[|ops|], op)],
                                   ops + [op], window, more[1..], later[1..], e', ClockAfter(from, op));
      assert states + [more[1]] + more[1..][1..] == states + more[1..];
      assert ops + [op] + later[1..] == ops + later;
    }
  }

  lemma FreeFailsJoin(states: seq<Entries>, ops: seq<Operation>, more: seq<Entries>, later: seq<Operation>,
                      window: int, limit: int)
    requires |states| == |ops| + 1 && |more| == |later| + 1 && more[0] == states[|ops|]
    requires FreeFails(states, ops, window, limit) && FreeFails(more, later, window, limit)
    ensures FreeFails(states + more[1..], ops + later, window, limit)
  {
    var all := states + more[1..];
    forall i | 0 <= i < |ops + later| && (ops + later)[i].Fail?
      ensures Wait(all[i], (ops + later)[i].key, (ops + later)[i].now, window, limit).None?
    {
      if i >= |ops| {
        assert all[i] == more[i - |ops|] && (ops + later)[i] == later[i - |ops|];
      }
    }
  }

  // ---- Several keys at once ----

  function NonBlank(keys: seq<string>): seq<string> {
    if keys == [] then []
    else
      var front, last := keys[..|keys| - 1], keys[|keys| - 1];
      if Blank(last) then NonBlank(front) else NonBlank(front) + [last]
  }

  lemma NonBlankNext(keys: seq<string>, i: nat)
    requires i < |keys|
    ensures NonBlank(keys[..i + 1]) == if Blank(keys[i]) then NonBlank(keys[..i]) else NonBlank(keys[..i]) + [keys[i]]
  {
    assert keys[..i + 1] == keys[..i] + [keys[i]];
  }

  function Checks(keys: seq<string>, now: int): seq<Operation> {
    seq(|keys|, i requires 0 <= i < |keys| => Check(keys[i], now))
  }

  /** The operations lead from `e` to `e'` through `states`. */
  ghost predicate Performs(e: Entries, states: seq<Entries>, ops: seq<Operation>, window: int, e': Entries) {
    && |states| == |ops| + 1 && states[0] == e && states[|ops|] == e'
    && forall i :: 0 <= i < |ops| ==> Happens(states[i], ops[i], window, states[i + 1])
  }

  /** The clock readings of the operations do not go back. */
  predicate InOrder(ops: seq<Operation>, from: int) {
    ops == [] || (from <= ClockAfter(from, ops[0]) && InOrder(ops[1..], ClockAfter(from, ops[0])))
  }

  function LastMoment(ops: seq<Operation>, from: int): int {
    if ops == [] then from else LastMoment(ops[1..], ClockAfter(from, ops[0]))
  }

  lemma PerformsCheck(e: Entries, states: seq<Entries>, keys: seq<string>, key: string, now: int, window: int,
                      e': Entries)
    requires Performs(e, states, Checks(keys, now), window, e')
    ensures Performs(e, states + [Pruned(e', key, now, window)], Checks(keys + [key], now), window,
      Pruned(e', key, now, window))
  {
    assert Checks(keys + [key], now) == Checks(keys, now) + [Check(key, now)];
  }

  function Forgets(keys: seq<string>): seq<Operation> {
    seq(|keys|, i requires 0 <= i < |keys| => Forget(keys[i]))
  }

  lemma PerformsForget(e: Entries, states: seq<Entries>, keys: seq<string>, key: string, window: int, e': Entries)
    requires Performs(e, states, Forgets(keys), window, e')
    ensures Performs(e, states + [e' - {key}], Forgets(keys + [key]), window, e' - {key})
  {
    assert Forgets(keys + [key]) == Forgets(keys) + [Forget(key)];
  }

  /** One failure for each of the names, in order. */
  predicate FailuresOf(ops: seq<Operation>, names: seq<string>, now: int) {
    |ops| == |names| && forall i :: 0 <= i < |ops| ==> ops[i].Fail? && ops[i].key == names[i] && ops[i].now == now
  }

  lemma PerformsFail(e: Entries, states: seq<Entries>, ops: seq<Operation>, names: seq<string>, key: string, now: int,
                     victim: Option<string>, window: int, e': Entries, e'': Entries)
    requires Performs(e, states, ops, window, e') && FailuresOf(ops, names, now)
    requires !Blank(key) && Records(e', key, now, window, e'', victim)
    ensures Performs(e, states + [e''], ops + [Fail(key, now, victim)], window, e'')
    ensures FailuresOf(ops + [Fail(key, now, victim)], names + [key], now)
  {
  }

  predicate Different(keys: seq<string>) {
    forall i, j :: 0 <= i < j < |keys| ==> keys[i] != keys[j]
  }

  /** From position `i` on no key is blocked. */
  predicate FreeFrom(e: Entries, keys: seq<string>, i: nat, now: int, window: int, limit: int) {
    forall j :: i <= j < |keys| ==> Blank(keys[j]) || Wait(e, keys[j], now, window, limit).None?
  }

  lemma RecordKeepsRest(e: Entries, keys: seq<string>, i: nat, now: int, window: int, limit: int, e': Entries,
                        victim: Option<string>)
    requires limit > 0 && i < |keys| && Records(e, keys[i], now, window, e', victim)
    requires Different(keys) && FreeFrom(e, keys, i, now, window, limit)
    ensures FreeFrom(e', keys, i + 1, now, window, limit)
  {
    forall j | i < j < |keys| && !Blank(keys[j]) ensures Wait(e', keys[j], now, window, limit).None? {
      RecordKeepsFree(e, keys[i], now, window, limit, e', victim, keys[j]);
    }
  }

  function Waits(e: Entries, keys: seq<string>, now: int, window: int, limit: int): seq<Option<int>> {
    seq(|keys|, i requires 0 <= i < |keys| => if Blank(keys[i]) then None else Wait(e, keys[i], now, window, limit))
  }

  predicate IsShortest(waits: seq<Option<int>>, shortest: int, blocked: bool) {
    if blocked then
      && Some(shortest) in waits && shortest > 0
      && forall i :: 0 <= i < |waits| && waits[i].Some? ==> shortest <= waits[i].value
    else
      shortest == 0 && forall i :: 0 <= i < |waits| ==> waits[i].None?
  }

  function Shorter(shortest: int, wait: Option<int>): int {
    if wait.Some? && (shortest == 0 || wait.value < shortest) then wait.value else shortest
  }

  lemma ShortestAppend(waits: seq<Option<int>>, wait: Option<int>, shortest: int)
    requires IsShortest(waits, shortest, shortest != 0) && (wait.Some? ==> wait.value > 0)
    ensures IsShortest(waits + [wait], Shorter(shortest, wait), Shorter(shortest, wait) != 0)
  {
    var all := waits + [wait];
    assert all[|waits|] == wait;
    assert forall i :: 0 <= i < |waits| ==> all[i] == waits[i];
  }

  /** The first `i` keys have been checked. */
  ghost predicate Scanned(was: Entries, keys: seq<string>, i: nat, now: int, window: int, limit: int,
                          states: seq<Entries>, e: Entries, shortest: int) {
    && i <= |keys| && SameWaits(was, e, now, window, limit)
    && Performs(was, states, Checks(NonBlank(keys[..i]), now), window, e)
    && IsShortest(Waits(was, keys[..i], now, window, limit), shortest, shortest != 0)
  }

  lemma WaitsNext(e: Entries, keys: seq<string>, i: nat, now: int, window: int, limit: int)
    requires i < |keys|
    ensures Waits(e, keys[..i + 1], now, window, limit) ==
      Waits(e, keys[..i], now, window, limit) + [if Blank(keys[i]) then None else Wait(e, keys[i], now, window, limit)]
  {
  }

  lemma ScanNext(was: Entries, keys: seq<string>, i: nat, now: int, window: int, limit: int,
                 states: seq<Entries>, e: Entries, shortest: int)
    requires i < |keys| && Scanned(was, keys, i, now, window, limit, states, e, shortest)
    requires var wait := Wait(was, keys[i], now, window, limit); wait.Some? ==> wait.value > 0
    ensures if Blank(keys[i]) then Scanned(was, keys, i + 1, now, window, limit, states, e, shortest)
            else
              var e' := Pruned(e, keys[i], now, window);
              Scanned(was, keys, i + 1, now, window, limit, states + [e'], e',
                Shorter(shortest, Wait(was, keys[i], now, window, limit)))
  {
    var wait := if Blank(keys[i]) then None else Wait(was, keys[i], now, window, limit);
    NonBlankNext(keys, i);
    WaitsNext(was, keys, i, now, window, limit);
    ShortestAppend(Waits(was, keys[..i], now, window, limit), wait, shortest);
    if !Blank(keys[i]) {
      PruneKeepsWaits(was, e, keys[i], now, window, limit);
      PerformsCheck(was, states, NonBlank(keys[..i]), keys[i], now, window, e);
    }
  }

  lemma FreeFromLater(e: Entries, keys: seq<string>, n1: int, n2: int, window: int, limit: int)
    requires n1 <= n2 && FreeFrom(e, keys, 0, n1, window, limit)
    ensures FreeFrom(e, keys, 0, n2, window, limit)
  {
    forall j | 0 <= j < |keys| && !Blank(keys[j]) ensures Wait(e, keys[j], n2, window, limit).None? {
      FreeLater(e, keys[j], n1, n2, window, limit);
    }
  }

  // ---- One login ----

  /** What a user name is taken for. */
  function LoginName(username: string): string {
    P.Lower(Trim(username))
  }

  /** Address, user name and both together, each under its own prefix. */
  function LoginKeys(ip: string, username: string): seq<string> {
    var name := LoginName(username);
    ["admin_login:ip:" + ip, "admin_login:user:" + name, "admin_login:pair:" + ip + ":" + name]
  }

  lemma LoginKeysDiffer(ip: string, username: string)
    ensures Different(LoginKeys(ip, username))
  {
    LoginKeysTell(ip, username, ip, username);
  }

  lemma AfterPrefix(prefix: string, a: string, b: string)
    ensures prefix + a == prefix + b <==> a == b
  {
    assert (prefix + a)[|prefix|..] == a && (prefix + b)[|prefix|..] == b;
  }

  /** Two logins share their first key exactly when they come from one address, their second exactly when
      they are for one user name but for case and surrounding space, and their third exactly when address,
      colon and name read the same. No key of one kind is a key of another. */
  lemma LoginKeysTell(ip: string, username: string, ip': string, username': string)
    ensures var a, b := LoginKeys(ip, username), LoginKeys(ip', username');
      && |a| == |b| == 3
      && (a[0] == b[0] <==> ip == ip')
      && (a[1] == b[1] <==> LoginName(username) == LoginName(username'))
      && (a[2] == b[2] <==> ip + ":" + LoginName(username) == ip' + ":" + LoginName(username'))
      && forall i, j :: 0 <= i < 3 && 0 <= j < 3 && i != j ==> a[i] != b[j]
  {
    var a, b := LoginKeys(ip, username), LoginKeys(ip', username');
    var m, n := LoginName(username), LoginName(username');
    AfterPrefix("admin_login:ip:", ip, ip');
    AfterPrefix("admin_login:user:", m, n);
    AfterPrefix("admin_login:pair:", ip + ":" + m, ip' + ":" + n);
    assert a[2] == "admin_login:pair:" + (ip + ":" + m) && b[2] == "admin_login:pair:" + (ip' + ":" + n);
    assert a[0][12] == b[0][12] == 'i' && a[1][12] == b[1][12] == 'u' && a[2][12] == b[2][12] == 'p';
  }

  lemma FirstColon(ip: string, name: string)
    requires ':' !in ip
    ensures (ip + ":" + name)[|ip|] == ':' && forall k :: 0 <= k < |ip| ==> (ip + ":" + name)[k] != ':'
  {
    assert forall k :: 0 <= k < |ip| ==> (ip + ":" + name)[k] == ip[k];
  }

  /** So the third keys tell pairs of address and name apart as long as no address has a colon... */
  lemma PairKeysTell(ip: string, username: string, ip': string, username': string)
    requires ':' !in ip && ':' !in ip'
    ensures LoginKeys(ip, username)[2] == LoginKeys(ip', username')[2] <==>
      ip == ip' && LoginName(username) == LoginName(username')
  {
    var m, n := LoginName(username), LoginName(username');
    LoginKeysTell(ip, username, ip', username');
    var x, y := ip + ":" + m, ip' + ":" + n;
    if x == y {
      FirstColon(ip, m);
      FirstColon(ip', n);
      assert x[..|ip|] == ip && y[..|ip'|] == ip' && x[|ip| + 1..] == m && y[|ip'| + 1..] == n;
    }
  }

  /** ... and not beyond: two logins from different addresses, for different names, with one pair key. */
  lemma PairKeysMeet()
    ensures LoginName("2:a") != LoginName("a") && LoginKeys("::1", "2:a")[2] == LoginKeys("::1:2", "a")[2]
  {
    assert Trim("2:a") == "2:a" && Trim("a") == "a";
    assert P.Lower("2:a") == "2:a" && P.Lower("a") == "a";
    assert "::1" + ":" + "2:a" == "::1:2" + ":" + "a";
    LoginKeysTell("::1", "2:a", "::1:2", "a");
  }

  lemma LoginKeysAreNotBlank(ip: string, username: string)
    ensures NonBlank(LoginKeys(ip, username)) == LoginKeys(ip, username)
  {
    var keys := LoginKeys(ip, username);
    assert forall i :: 0 <= i < 3 ==> !IsSpace(keys[i][0]);
    AllNonBlank(keys);
  }

  lemma {:induction false} AllNonBlank(keys: seq<string>)
    requires forall i :: 0 <= i < |keys| ==> !Blank(keys[i])
    ensures NonBlank(keys) == keys
  {
    if keys != [] {
      AllNonBlank(keys[..|keys| - 1]);
    }
  }

  datatype RunOf = RunOf(states: seq<Entries>, logs: seq<Log>, clocks: seq<int>, ops: seq<Operation>)

  function EmptyRun(clock: int): RunOf {
    RunOf([map[]], [map[]], [clock], [])
  }

  /** All operations at one moment, or without one. */
  predicate AtMoment(ops: seq<Operation>, moment: int) {
    forall i :: 0 <= i < |ops| ==> ops[i].Forget? || ops[i].now == moment
  }

  lemma {:induction false} MomentInOrder(ops: seq<Operation>, moment: int, from: int)
    requires AtMoment(ops, moment) && from <= moment
    ensures InOrder(ops, from) && LastMoment(ops, from) <= moment
  {
    if ops != [] {
      assert AtMoment(ops[1..], moment);
      MomentInOrder(ops[1..], moment, ClockAfter(from, ops[0]));
    }
  }

  lemma NotBlockedIsFree(e: Entries, e': Entries, keys: seq<string>, now: int, window: int, limit: int)
    requires IsShortest(Waits(e, keys, now, window, limit), 0, false) && SameWaits(e, e', now, window, limit)
    ensures FreeFrom(e', keys, 0, now, window, limit)
  {
    var waits := Waits(e, keys, now, window, limit);
    forall j | 0 <= j < |keys| && !Blank(keys[j]) ensures Wait(e', keys[j], now, window, limit).None? {
      assert waits[j].None? && Wait(e', keys[j], now, window, limit) == Wait(e, keys[j], now, window, limit);
    }
  }

  lemma ThreeChecks(keys: seq<string>, now: int)
    requires |keys| == 3
    ensures Checks(keys, now) == [Check(keys[0], now), Check(keys[1], now), Check(keys[2], now)]
    ensures Forgets(keys) == [Forget(keys[0]), Forget(keys[1]), Forget(keys[2])]
  {
  }

  /** The operations of a login with three keys, one by one. */
  lemma Spelled(ops: seq<Operation>, ops': seq<Operation>, keys: seq<string>, checkedAt: int, countedAt: int,
                blocked: bool, accepted: bool)
    requires |keys| == 3
    requires var checks := Checks(keys, checkedAt);
      if blocked then ops' == ops + checks
      else if accepted then ops' == ops + checks + Forgets(keys)
      else exists fails :: FailuresOf(fails, keys, countedAt) && ops' == ops + checks + fails
    ensures var checks := [Check(keys[0], checkedAt), Check(keys[1], checkedAt), Check(keys[2], checkedAt)];
      if blocked then ops' == ops + checks
      else if accepted then ops' == ops + checks + [Forget(keys[0]), Forget(keys[1]), Forget(keys[2])]
      else
        && |ops'| == |ops| + 6 && ops'[..|ops| + 3] == ops + checks
        && forall j :: 0 <= j < 3 ==>
             var op := ops'[|ops| + 3 + j]; op.Fail? && op.key == keys[j] && op.now == countedAt
  {
    ThreeChecks(keys, checkedAt);
    if !blocked && !accepted {
      var fails :| FailuresOf(fails, keys, countedAt) && ops' == ops + Checks(keys, checkedAt) + fails;
      assert forall j :: 0 <= j < 3 ==> ops'[|ops| + 3 + j] == fails[j];
    }
  }

  /** What is announced after a check of three keys none of which is blank. */
  lemma Announced(e: Entries, keys: seq<string>, now: int, window: int, limit: int, retryAfter: int, blocked: bool)
    requires NonBlank(keys) == keys && |keys| == 3
    requires IsShortest(Waits(e, keys, now, window, limit), retryAfter, blocked)
    ensures blocked <==>
      || Wait(e, keys[0], now, window, limit).Some?
      || Wait(e, keys[1], now, window, limit).Some?
      || Wait(e, keys[2], now, window, limit).Some?
    ensures if !blocked then retryAfter == 0
      else
        && retryAfter > 0
        && (exists j :: 0 <= j < 3 && Wait(e, keys[j], now, window, limit) == Some(retryAfter))
        && forall j :: 0 <= j < 3 ==>
             var wait := Wait(e, keys[j], now, window, limit);
             wait.Some? ==> retryAfter <= wait.value
  {
    var waits := Waits(e, keys, now, window, limit);
    forall j | 0 <= j < 3 ensures waits[j] == Wait(e, keys[j], now, window, limit) {
      NoneBlank(keys, j);
    }
    assert waits[0] == Wait(e, keys[0], now, window, limit) && waits[1] == Wait(e, keys[1], now, window, limit);
    if blocked {
      var j :| 0 <= j < |waits| && waits[j] == Some(retryAfter);
      assert waits[j].Some? && Wait(e, keys[j], now, window, limit) == Some(retryAfter);
    }
  }

  lemma {:induction false} NonBlankIsShorter(keys: seq<string>)
    ensures |NonBlank(keys)| <= |keys|
  {
    if keys != [] {
      NonBlankIsShorter(keys[..|keys| - 1]);
    }
  }

  lemma {:induction false} NoneBlank(keys: seq<string>, j: nat)
    requires NonBlank(keys) == keys && j < |keys|
    ensures !Blank(keys[j])
  {
    var n := |keys| - 1;
    NonBlankIsShorter(keys[..n]);
    if j < n {
      assert NonBlank(keys)[..n] == NonBlank(keys[..n]);
      NoneBlank(keys[..n], j);
    }
  }

  /** A run of free failures, made longer. */
  lemma Longer(run: RunOf, more: seq<Entries>, ops: seq<Operation>, e': Entries, from: int, moment: int, window: int,
               limit: int)
    returns (run': RunOf)
    requires Run(run.states, run.logs, run.clocks, run.ops, window) && FreeFails(run.states, run.ops, window, limit)
    requires run.clocks[|run.ops|] <= from <= moment && AtMoment(ops, moment)
    requires Performs(run.states[|run.ops|], more, ops, window, e') && FreeFails(more, ops, window, limit)
    ensures Run(run'.states, run'.logs, run'.clocks, run'.ops, window) &&
      FreeFails(run'.states, run'.ops, window, limit)
    ensures run'.ops == run.ops + ops && run'.states[|run'.ops|] == e' && run'.clocks[|run'.ops|] <= moment
  {
    MomentInOrder(ops, moment, from);
    var logs, clocks := RunExtends(run.states, run.logs, run.clocks, run.ops, window, more, ops, e', from);
    FreeFailsJoin(run.states, run.ops, more, ops, window, limit);
    run' := RunOf(run.states + more[1..], logs, clocks, run.ops + ops);
  }

  // ---- The object ----

  /** One round of the loop below: `front` is kept already, `rest` is still to look at. */
  lemma SurvivorsNext(front: Times, rest: Times, cutoff: int)
    requires rest != []
    ensures front + Survivors(rest, cutoff) ==
      (if rest[0] > cutoff then front + [rest[0]] else front) + Survivors(rest[1..], cutoff)
  {
    assert front + ([rest[0]] + Survivors(rest[1..], cutoff)) == front + [rest[0]] + Survivors(rest[1..], cutoff);
  }

  /** Keep the attempts after the cutoff at the front of the same array. */
  method Compact(a: array<int>, cutoff: int) returns (kept: nat)
    modifies a
    ensures kept <= a.Length && a[..kept] == Survivors(old(a[..]), cutoff)
  {
    kept := 0;
    ghost var rest := a[..];
    for i := 0 to a.Length
      invariant kept <= i && rest == a[i..]
      invariant a[..kept] + Survivors(rest, cutoff) == Survivors(old(a[..]), cutoff)
    {
      var at := a[i];
      ghost var front := a[..kept];
      SurvivorsNext(front, rest, cutoff);
      rest := rest[1..];
      if at > cutoff {
        a[kept] := at;
        kept := kept + 1;
        assert a[..kept] == front + [at];
      }
    }
    assert a[..kept] + [] == a[..kept];
  }

  class AuthAttemptLimiter {
    const window: int
    const limit: int
    var entries: Entries

    constructor (window: int, limit: int)
      requires window > 0 && limit > 0
      ensures Valid() && this.window == window && this.limit == limit && entries == map[]
      ensures forall clock :: Reached(EmptyRun(clock))
    {
      this.window, this.limit, entries := window, limit, map[];
    }

    ghost predicate Valid()
      reads this
    {
      window > 0 && limit > 0 && |entries| <= MAX_ENTRIES && forall k :: k in entries ==> !Blank(k)
    }

    method PruneLocked(key: string, now: int) returns (keep: Times)
      requires Valid()
      modifies this
      ensures Valid() && entries == Pruned(old(entries), key, now, window)
      ensures keep == Survivors(AttemptsOf(old(entries), key), now - window)
      ensures key in entries ==> key in old(entries)
      ensures |entries| <= |old(entries)|
    {
      if key !in entries || entries[key].attempts == [] {
        return [];
      }
      var attempts := entries[key].attempts;
      var a := new int[|attempts|](i requires 0 <= i < |attempts| => attempts[i]);
      assert a[..] == attempts;
      var n := Compact(a, now - window);
      keep := a[..n];
      if n == 0 {
        entries := entries - {key};
        return [];
      }
      entries := entries[key := Entry(keep, now)];
    }

    method PruneAllLocked(now: int)
      requires Valid()
      modifies this
      ensures Valid() && entries == PrunedAll(old(entries), now - window)
      ensures |entries| <= |old(entries)|
    {
      var keys := Enumerate(entries.Keys);
      var cutoff := now - window;
      ghost var was := entries;
      for i := 0 to |keys|
        invariant forall k :: k in entries ==> k in was && entries[k] == was[k]
        invariant forall j :: 0 <= j < i ==> (keys[j] in entries <==> !Stale(was[keys[j]], cutoff))
        invariant forall j :: i <= j < |keys| ==> keys[j] in entries
      {
        if Stale(entries[keys[i]], cutoff) {
          entries := entries - {keys[i]};
        }
      }
      assert entries == PrunedAll(was, cutoff);
      FewerEntries(entries, was);
    }

    /** The empty key stands for "none yet"; no entry has it. */
    method EvictOldestLocked() returns (ghost victim: string)
      requires Valid() && entries != map[]
      modifies this
      ensures Valid() && IsOldest(old(entries), victim) && entries == old(entries) - {victim}
    {
      var keys := Enumerate(entries.Keys);
      var oldestKey, oldestTime := "", 0;
      for i := 0 to |keys|
        invariant i == 0 ==> oldestKey == ""
        invariant i > 0 ==> oldestKey in entries && oldestTime == entries[oldestKey].lastSeen
        invariant forall j :: 0 <= j < i ==> oldestTime <= entries[keys[j]].lastSeen
      {
        assert keys[i] in entries && !Blank(keys[i]);
        if oldestKey == "" || entries[keys[i]].lastSeen < oldestTime {
          oldestKey, oldestTime := keys[i], entries[keys[i]].lastSeen;
        }
      }
      assert keys != [];
      victim := oldestKey;
      assert oldestKey != "" by { assert !Blank(oldestKey); }
      if oldestKey != "" {
        entries := entries - {oldestKey};
      }
    }

    method RetryAfter(key: string, now: int) returns (retryAfter: int, blocked: bool)
      requires Valid()
      modifies this
      ensures Valid() && entries == Pruned(old(entries), key, now, window)
      ensures blocked == Wait(old(entries), key, now, window, limit).Some?
      ensures if blocked then retryAfter == Wait(old(entries), key, now, window, limit).value > 0 else retryAfter == 0
    {
      var attempts := PruneLocked(key, now);
      if |attempts| < limit {
        return 0, false;
      }
      SurvivorsAreLater(AttemptsOf(old(entries), key), now - window);
      retryAfter := attempts[0] + window - now;
      assert retryAfter > 0;  // the source's test for a negative wait never fires
      blocked := true;
    }

    method RecordFailure(key: string, now: int) returns (ghost victim: Option<string>)
      requires Valid() && !Blank(key)
      modifies this
      ensures Valid() && Records(old(entries), key, now, window, entries, victim)
    {
      var attempts := PruneLocked(key, now);
      victim := None;
      if key !in entries && |entries| >= MAX_ENTRIES {
        PruneAllLocked(now);
        if |entries| >= MAX_ENTRIES {
          ghost var name := EvictOldestLocked();
          victim := Some(name);
        }
      }
      assert MakesRoom(old(entries), key, now, window, entries, victim);
      entries := entries[key := Entry(attempts + [now], now)];
    }

    method Clear(key: string)
      requires Valid()
      modifies this
      ensures Valid() && entries == old(entries) - {key}
    {
      entries := entries - {key};
    }

    /** A failed login counts once against each of its non-blank keys, in order. If the keys are
        different and were free when they were checked, at this moment or earlier, then each is free
        when its failure is recorded, and none has more than `limit` attempts afterwards. */
    method RecordFailureMany(keys: seq<string>, now: int, ghost checked: int)
      returns (ghost states: seq<Entries>, ghost ops: seq<Operation>)
      requires Valid()
      modifies this
      ensures Valid() && Performs(old(entries), states, ops, window, entries)
      ensures FailuresOf(ops, NonBlank(keys), now)
      ensures checked <= now && Different(keys) && FreeFrom(old(entries), keys, 0, checked, window, limit) ==>
        FreeFails(states, ops, window, limit) && (Within(old(entries), limit) ==> Within(entries, limit))
    {
      ghost var fits := checked <= now && Different(keys) && FreeFrom(entries, keys, 0, checked, window, limit);
      if fits {
        FreeFromLater(entries, keys, checked, now, window, limit);
      }
      states, ops := [entries], [];
      for i := 0 to |keys|
        invariant Valid() && Performs(old(entries), states, ops, window, entries)
        invariant FailuresOf(ops, NonBlank(keys[..i]), now)
        invariant fits ==> FreeFrom(entries, keys, i, now, window, limit) && FreeFails(states, ops, window, limit)
      {
        NonBlankNext(keys, i);
        if Blank(keys[i]) {
          continue;
        }
        ghost var before := entries;
        ghost var victim := RecordFailure(keys[i], now);
        PerformsFail(old(entries), states, ops, NonBlank(keys[..i]), keys[i], now, victim, window, before, entries);
        if fits {
          RecordKeepsRest(before, keys, i, now, window, limit, entries, victim);
          FreeFailsFail(states, ops, keys[i], now, victim, window, limit, entries);
        }
        states, ops := states + [entries], ops + [Fail(keys[i], now, victim)];
      }
      if fits && Within(old(entries), limit) {
        PerformsKeepsLimit(old(entries), states, ops, window, limit, entries, |ops|);
      }
      assert keys[..|keys|] == keys;
    }

    method ClearMany(keys: seq<string>) returns (ghost states: seq<Entries>)
      requires Valid()
      modifies this
      ensures Valid() && Performs(old(entries), states, Forgets(NonBlank(keys)), window, entries)
    {
      states := [entries];
      for i := 0 to |keys|
        invariant Valid() && Performs(old(entries), states, Forgets(NonBlank(keys[..i])), window, entries)
      {
        NonBlankNext(keys, i);
        if Blank(keys[i]) {
          continue;
        }
        PerformsForget(old(entries), states, NonBlank(keys[..i]), keys[i], window, entries);
        Clear(keys[i]);
        states := states + [entries];
      }
      assert keys[..|keys|] == keys;
    }

    /** Blocked exactly when some non-blank key is, with the shortest of their waits: zero is free
        to mean "none" because no wait is zero. The checks change no key's wait. */
    method RetryAfterAny(keys: seq<string>, now: int) returns (minRetry: int, blocked: bool, ghost states: seq<Entries>)
      requires Valid()
      modifies this
      ensures Valid() && Performs(old(entries), states, Checks(NonBlank(keys), now), window, entries)
      ensures SameWaits(old(entries), entries, now, window, limit)
      ensures IsShortest(Waits(old(entries), keys, now, window, limit), minRetry, blocked)
    {
      ghost var was := entries;
      minRetry, states := 0, [entries];
      for i := 0 to |keys|
        invariant Valid() && Scanned(was, keys, i, now, window, limit, states, entries, minRetry)
      {
        WaitIsPositive(was, keys[i], now, window, limit);
        ScanNext(was, keys, i, now, window, limit, states, entries, minRetry);
        if Blank(keys[i]) {
          continue;
        }
        ghost var shortest := Shorter(minRetry, Wait(entries, keys[i], now, window, limit));
        var retryAfter, keyBlocked := RetryAfter(keys[i], now);
        states := states + [entries];
        if keyBlocked && (minRetry == 0 || retryAfter < minRetry) {
          minRetry := retryAfter;
        }
        assert minRetry == shortest;
      }
      assert keys[..|keys|] == keys;
      blocked := minRetry != 0;
    }

    /** The run brought the limiter to where it is, and recorded failures of free keys only. */
    ghost predicate Reached(run: RunOf)
      reads this
    {
      && Run(run.states, run.logs, run.clocks, run.ops, window)
      && FreeFails(run.states, run.ops, window, limit) && run.states[|run.ops|] == entries
    }

    /** The handler's part of a login once it has its keys. */
    method LoginUnder(keys: seq<string>, checkedAt: int, accepted: bool, countedAt: int, ghost run: RunOf)
      returns (retryAfter: int, blocked: bool, ghost run': RunOf)
      requires Valid() && Reached(run) && run.clocks[|run.ops|] <= checkedAt <= countedAt
      requires NonBlank(keys) == keys && Different(keys)
      modifies this
      ensures Valid() && Reached(run') && run'.clocks[|run'.ops|] <= countedAt
      ensures IsShortest(Waits(old(entries), keys, checkedAt, window, limit), retryAfter, blocked)
      ensures var checks := Checks(keys, checkedAt);
        if blocked then run'.ops == run.ops + checks
        else if accepted then run'.ops == run.ops + checks + Forgets(keys)
        else exists fails :: FailuresOf(fails, keys, countedAt) && run'.ops == run.ops + checks + fails
    {
      ghost var was := entries;
      ghost var more, ops;
      retryAfter, blocked, more := RetryAfterAny(keys, checkedAt);
      run' := Longer(run, more, Checks(keys, checkedAt), entries, checkedAt, checkedAt, window, limit);
      if blocked {
        return;
      }
      ghost var checked := run';
      if !accepted {
        NotBlockedIsFree(was, entries, keys, checkedAt, window, limit);
        more, ops := RecordFailureMany(keys, countedAt, checkedAt);
        run' := Longer(checked, more, ops, entries, checkedAt, countedAt, window, limit);
        assert FailuresOf(ops, keys, countedAt);
      } else {
        more := ClearMany(keys);
        run' := Longer(checked, more, Forgets(keys), entries, checkedAt, checkedAt, window, limit);
      }
    }

    /** One admin login, as the handler does it: checked at one moment, counted at a later one. What it
        does to the limiter goes on from the run so far, so `RunKeepsLimit`, `BlocksExactly` and
        `WaitExactOverRuns` hold after any number of logins, one at a time. */
    method Login(ip: string, username: string, checkedAt: int, accepted: bool, countedAt: int, ghost run: RunOf)
      returns (retryAfter: int, blocked: bool, ghost run': RunOf)
      requires Valid() && Reached(run) && run.clocks[|run.ops|] <= checkedAt <= countedAt
      modifies this
      ensures Valid() && Reached(run') && run'.clocks[|run'.ops|] <= countedAt
      ensures var k := LoginKeys(ip, username);
        blocked <==>
          || Wait(old(entries), k[0], checkedAt, window, limit).Some?
          || Wait(old(entries), k[1], checkedAt, window, limit).Some?
          || Wait(old(entries), k[2], checkedAt, window, limit).Some?
      ensures if !blocked then retryAfter == 0
        else
          && retryAfter > 0
          && (exists j :: 0 <= j < 3 &&
                Wait(old(entries), LoginKeys(ip, username)[j], checkedAt, window, limit) == Some(retryAfter))
          && forall j :: 0 <= j < 3 ==>
               var wait := Wait(old(entries), LoginKeys(ip, username)[j], checkedAt, window, limit);
               wait.Some? ==> retryAfter <= wait.value
      ensures var k := LoginKeys(ip, username);
        var checks := [Check(k[0], checkedAt), Check(k[1], checkedAt), Check(k[2], checkedAt)];
        if blocked then run'.ops == run.ops + checks
        else if accepted then run'.ops == run.ops + checks + [Forget(k[0]), Forget(k[1]), Forget(k[2])]
        else
          && |run'.ops| == |run.ops| + 6 && run'.ops[..|run.ops| + 3] == run.ops + checks
          && forall j :: 0 <= j < 3 ==>
               var op := run'.ops[|run.ops| + 3 + j]; op.Fail? && op.key == k[j] && op.now == countedAt
    {
      var keys := LoginKeys(ip, username);
      LoginKeysAreNotBlank(ip, username);
      LoginKeysDiffer(ip, username);
      retryAfter, blocked, run' := LoginUnder(keys, checkedAt, accepted, countedAt, run);
      Announced(old(entries), keys, checkedAt, window, limit, retryAfter, blocked);
      Spelled(run.ops, run'.ops, keys, checkedAt, countedAt, blocked, accepted);
    }
  }
}
