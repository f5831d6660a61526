/** One attached database's schema shared by many connections (`core/connection.rs`): a connection changes a staged
    copy of its own, and commit overwrites the shared schema with that copy. */
module AttachedSchema {
  import opened Common

  /** A schema, as the DDL statements it results from. */
  type Schema = seq<string>

  // ----- The database and its connections

  datatype World = World(shared: Schema, staged: map<nat, Schema>)

  datatype Event = Mutate(connection: nat, ddl: string) | Publish(connection: nat) | Discard(connection: nat)

  /** What a connection reads: its staged copy, or else the shared schema. */
  function Reads(w: World, c: nat): Schema {
    if c in w.staged then w.staged[c] else w.shared
  }

  function Step(w: World, e: Event): World {
    match e
    case Mutate(c, ddl) => w.(staged := w.staged[c := Reads(w, c) + [ddl]])
    case Publish(c) => if c in w.staged then World(w.staged[c], w.staged - {c}) else w
    case Discard(c) => w.(staged := w.staged - {c})
  }

  function Run(events: seq<Event>): World {
    if events == [] then World([], map[]) else Step(Run(events[..|events| - 1]), events[|events| - 1])
  }

  class Database {
    var schema: Schema

    constructor ()
      ensures schema == []
    {
      schema := [];
    }
  }

  class Connection {
    const db: Database
    var staged: Option<Schema>

    constructor (db: Database)
      ensures this.db == db && staged == None
    {
      this.db, staged := db, None;
    }

    /** This connection's part of the world. */
    function View(c: nat): World
      reads this, db
    {
      World(db.schema, if staged.Some? then map[c := staged.value] else map[])
    }

    /** `with_database_schema_mut`: only the first change copies the shared schema. */
    method MutateSchema(c: nat, ddl: string)
      modifies `staged
      ensures View(c) == Step(old(View(c)), Mutate(c, ddl))
    {
      if staged.None? {
        staged := Some(db.schema);
      }
      staged := Some(staged.value + [ddl]);
    }

    /** `publish_database_schema`. */
    method PublishSchema(c: nat)
      modifies this, db
      ensures View(c) == Step(old(View(c)), Publish(c))
    {
      if staged.Some? {
        var local := staged.value;
        staged := None;
        db.schema := local;
      }
    }

    /** The schema part of a rollback. */
    method DiscardSchema(c: nat)
      modifies `staged
      ensures View(c) == Step(old(View(c)), Discard(c))
    {
      staged := None;
    }

    /** `cached_non_main_schema`. */
    method CachedSchema(c: nat) returns (schema: Schema)
      ensures schema == Reads(View(c), c)
    {
      if staged.Some? {
        return staged.value;
      }
      return db.schema;
    }
  }

  // ----- The reference: a log of committed DDL

  /** Every connection's uncommitted DDL, with the length of the committed log when it staged its copy. */
  datatype Pending = Pending(base: nat, ddl: seq<string>)

  datatype Log = Log(committed: seq<string>, pending: map<nat, Pending>)

  function LogStep(log: Log, e: Event): Log {
    match e
    case Mutate(c, ddl) =>
      var p := if c in log.pending then log.pending[c] else Pending(|log.committed|, []);
      log.(pending := log.pending[c := p.(ddl := p.ddl + [ddl])])
    case Publish(c) =>
      if c in log.pending then Log(log.committed + log.pending[c].ddl, log.pending - {c}) else log
    case Discard(c) => log.(pending := log.pending - {c})
  }

  function LogRun(events: seq<Event>): Log {
    if events == [] then Log([], map[]) else LogStep(LogRun(events[..|events| - 1]), events[|events| - 1])
  }

  /** The publishing connection staged its copy before some DDL that has been committed since. */
  predicate Stale(log: Log, e: Event) {
    e.Publish? && e.connection in log.pending && log.pending[e.connection].base != |log.committed|
  }

  predicate NeverStale(events: seq<Event>) {
    events == [] ||
    (NeverStale(events[..|events| - 1]) && !Stale(LogRun(events[..|events| - 1]), events[|events| - 1]))
  }

  predicate StagedAgrees(w: World, log: Log, c: nat)
    requires c in log.pending && c in w.staged
  {
    && log.pending[c].base <= |log.committed| && log.pending[c].ddl != []
    && w.staged[c] == log.committed[..log.pending[c].base] + log.pending[c].ddl
  }

  /** The shared schema is the committed DDL, and each staged copy is the committed DDL of its time and its own. */
  predicate Agrees(w: World, log: Log) {
    && w.shared == log.committed && w.staged.Keys == log.pending.Keys
    && forall c :: c in w.staged ==> StagedAgrees(w, log, c)
  }

  lemma MutateAgrees(w: World, log: Log, c: nat, ddl: string)
    requires Agrees(w, log)
    ensures Agrees(Step(w, Mutate(c, ddl)), LogStep(log, Mutate(c, ddl)))
  {
  }

  lemma CurrentPublishAgrees(w: World, log: Log, e: Event)
    requires Agrees(w, log) && !e.Mutate? && !Stale(log, e)
    ensures Agrees(Step(w, e), LogStep(log, e))
  {
  }

  /** A stale publish drops the DDL committed since, whatever was staged. */
  lemma StalePublishLoses(w: World, log: Log, e: Event)
    requires Agrees(w, log) && Stale(log, e)
    ensures Step(w, e).shared != LogStep(log, e).committed
    ensures |Step(w, e).shared| < |LogStep(log, e).committed|
  {
  }

  /** While no publish has been stale, the shared schema is exactly the committed DDL, and each connection reads
      the committed DDL of the moment it staged followed by its own. */
  lemma {:induction false} CurrentRunAgrees(events: seq<Event>)
    requires NeverStale(events)
    ensures Agrees(Run(events), LogRun(events))
  {
    if events != [] {
      var n := |events| - 1;
      var before, e := events[..n], events[n];
      CurrentRunAgrees(before);
      if e.Mutate? {
        MutateAgrees(Run(before), LogRun(before), e.connection, e.ddl);
      } else {
        CurrentPublishAgrees(Run(before), LogRun(before), e);
      }
    }
  }

  predicate InStep(events: seq<Event>) {
    Run(events).shared == LogRun(events).committed
  }

  /** At every point of a run the shared schema is the fold of the committed DDL, if and only if no connection in
      it published a copy staged before somebody else's commit. */
  lemma {:induction false} SharedIsCommittedExactlyWhenNeverStale(events: seq<Event>)
    ensures NeverStale(events) <==> forall n :: 0 <= n <= |events| ==> InStep(events[..n])
  {
    hide Run, LogRun, Step, LogStep, Stale, Agrees;
    assert events[..|events|] == events;
    if NeverStale(events) {
      AgreementIsInStep(events);
    }
    if events != [] {
      var n := |events| - 1;
      var before := events[..n];
      SharedIsCommittedExactlyWhenNeverStale(before);
      assert forall k :: 0 <= k <= n ==> before[..k] == events[..k];
      if NeverStale(before) && !NeverStale(events) {
        CurrentRunAgrees(before);
        StaleStepFallsOut(events);
      }
      if !NeverStale(before) {
        var k :| 0 <= k <= n && !InStep(before[..k]);
        assert !InStep(events[..k]);
      }
    }
  }

  lemma AgreementIsInStep(events: seq<Event>)
    requires NeverStale(events)
    ensures InStep(events)
  {
    CurrentRunAgrees(events);
  }

  lemma StaleStepFallsOut(events: seq<Event>)
    requires events != [] && NeverStale(events[..|events| - 1])
    requires Stale(LogRun(events[..|events| - 1]), events[|events| - 1])
    ensures !InStep(events)
  {
    var n := |events| - 1;
    CurrentRunAgrees(events[..n]);
    StalePublishLoses(Run(events[..n]), LogRun(events[..n]), events[n]);
  }

  // ----- One writer at a time

  /** No connection stages a change while another has one staged. */
  predicate OneWriter(events: seq<Event>) {
    events == [] ||
    (var before, e := events[..|events| - 1], events[|events| - 1];
     OneWriter(before) && (e.Mutate? ==> LogRun(before).pending.Keys <= {e.connection}))
  }

  predicate SoleAndCurrent(log: Log) {
    && (forall c :: c in log.pending ==> log.pending[c].base == |log.committed|)
    && forall c, d :: c in log.pending && d in log.pending ==> c == d
  }

  lemma {:induction false} OneWriterIsCurrent(events: seq<Event>)
    requires OneWriter(events)
    ensures SoleAndCurrent(LogRun(events)) && NeverStale(events)
  {
    if events != [] {
      OneWriterIsCurrent(events[..|events| - 1]);
    }
  }

  /** With one staged writer at a time nothing is lost, the writer reads everything committed and its own changes,
      and everybody else reads exactly what is committed. */
  lemma OneWriterSeesItsOwn(events: seq<Event>, c: nat)
    requires OneWriter(events)
    ensures var w, log := Run(events), LogRun(events);
            && w.shared == log.committed
            && Reads(w, c) == log.committed + if c in log.pending then log.pending[c].ddl else []
  {
    OneWriterIsCurrent(events);
    CurrentRunAgrees(events);
    var w, log := Run(events), LogRun(events);
    if c in w.staged {
      assert StagedAgrees(w, log, c);
      assert log.committed[..|log.committed|] == log.committed;
    }
  }

  /** Two connections that stage at once: both publish, and what the first one published is gone. */
  lemma TwoWritersLoseAnUpdate(w: World, c: nat, first: string, d: nat, second: string)
    requires c != d && c !in w.staged && d !in w.staged
    ensures var staged := Step(Step(w, Mutate(c, first)), Mutate(d, second));
            && Step(staged, Publish(c)).shared == w.shared + [first]
            && Step(Step(staged, Publish(c)), Publish(d)).shared == w.shared + [second]
            && Step(Step(staged, Publish(c)), Publish(d)).staged == w.staged
  {
  }
}
