/** What is remembered of a store's run: the creations, and the calls that succeeded on them. Both
    stores are judged by it. */
module PasteHistory {
  import opened Common

  /** The id and body a creation was for. */
  datatype Birth = Birth(id: string, source: seq<byte>)

  /** `gen` numbers creations; a view is logged with the body its callback was given. */
  datatype Event =
    | Created(id: string, gen: nat)
    | Opened(id: string, gen: nat)
    | Viewed(id: string, gen: nat, once: bool, body: seq<byte>)

  /** `births[g]` is creation number `g`; `loose` collects the creations whose metadata has ever said
      anything else than "once". */
  datatype History = History(births: seq<Birth>, log: seq<Event>, loose: set<nat>)

  predicate OnceView(e: Event) {
    e.Viewed? && e.once
  }

  /** A one-time view of creation `g` has succeeded. */
  ghost predicate Consumed(log: seq<Event>, g: nat) {
    exists i :: 0 <= i < |log| && OnceView(log[i]) && log[i].gen == g
  }

  /** At most one event was added. */
  predicate Grows(log: seq<Event>, log': seq<Event>) {
    log' == log || (|log'| == |log| + 1 && log'[..|log|] == log)
  }

  predicate LogsOnce(log: seq<Event>, log': seq<Event>) {
    |log'| > |log| && OnceView(log'[|log|])
  }

  lemma ConsumedGrows(log: seq<Event>, log': seq<Event>, g: nat)
    requires Grows(log, log') && Consumed(log', g)
    ensures Consumed(log, g) || (LogsOnce(log, log') && log'[|log|].gen == g)
  {
    var i :| 0 <= i < |log'| && OnceView(log'[i]) && log'[i].gen == g;
    assert i < |log| ==> log'[..|log|][i] == log'[i];
  }

  lemma ConsumedAppend(log: seq<Event>, e: Event, g: nat)
    ensures Consumed(log + [e], g) <==> Consumed(log, g) || (OnceView(e) && e.gen == g)
  {
    if OnceView(e) && e.gen == g {
      assert (log + [e])[|log|] == e;
    }
    if Consumed(log, g) {
      var i :| 0 <= i < |log| && OnceView(log[i]) && log[i].gen == g;
      assert (log + [e])[i] == log[i];
    }
  }

  /** After a one-time view no event names the same creation. */
  predicate Final(log: seq<Event>) {
    forall i, j :: 0 <= i < j < |log| && OnceView(log[i]) ==> log[j].gen != log[i].gen
  }

  lemma FinalGrows(log: seq<Event>, log': seq<Event>)
    requires Final(log) && Grows(log, log') && (|log'| > |log| ==> !Consumed(log, log'[|log|].gen))
    ensures Final(log')
  {
    assert forall i :: 0 <= i < |log| ==> log'[..|log|][i] == log'[i];
  }
}
