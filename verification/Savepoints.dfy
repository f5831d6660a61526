/** Savepoints, rollback-only transactions and in-memory schemas of one connection
    (`core/connection.rs`, driven by `op_savepoint` and `op_auto_commit` in `core/vdbe/execute.rs`).

    The connection restores schemas from snapshots. The reference is a log of what happened, cut back to the
    savepoint by ROLLBACK TO and replayed from nothing. */
module Savepoints {
  import opened Common

  /** A schema, as the DDL statements it results from. */
  type Schema = seq<string>

  // ----- The connection

  /** `NamedSavepointFrame`. */
  datatype Frame = Frame(name: string, startsTransaction: bool, poisoned: bool,
                         main: Schema, temp: Option<Schema>, staged: map<nat, Schema>)

  /** The transaction-related fields of a connection. `shared` holds the attached databases' published
      schemas and `staged` this connection's uncommitted versions of them. */
  datatype Conn = Conn(autoCommit: bool, poisoned: bool, frames: seq<Frame>,
                       main: Schema, mainShared: Schema, mainChanged: bool,
                       temp: Option<Schema>, tempCommitted: Option<Schema>, tempChanged: bool,
                       staged: map<nat, Schema>, shared: map<nat, Schema>)

  function OrEmpty(s: Option<Schema>): Schema {
    if s.Some? then s.value else []
  }

  /** The position of the innermost savepoint of a name. */
  function LastNamed(frames: seq<Frame>, name: string): (r: Option<nat>)
    ensures r.Some? ==> r.value < |frames| && frames[r.value].name == name
    ensures r.Some? ==> forall k :: r.value < k < |frames| ==> frames[k].name != name
    ensures r.None? ==> forall k :: 0 <= k < |frames| ==> frames[k].name != name
  {
    if frames == [] then None
    else if frames[|frames| - 1].name == name then Some(|frames| - 1)
    else LastNamed(frames[..|frames| - 1], name)
  }

  /** `push_named_savepoint` with the snapshots taken at SAVEPOINT. */
  function OpenSavepoint(c: Conn, name: string): Conn {
    c.(frames := c.frames + [Frame(name, c.autoCommit, c.poisoned, c.main, c.temp, c.staged)], autoCommit := false)
  }

  /** `rollback_named_savepoint_frame` and the restoration its caller performs. */
  function RollbackTo(c: Conn, name: string): Option<Conn> {
    match LastNamed(c.frames, name)
    case None => None
    case Some(i) =>
      var f := c.frames[i];
      Some(c.(frames := c.frames[..i + 1], main := f.main, staged := f.staged, poisoned := f.poisoned,
              temp := if c.temp.Some? then Some(OrEmpty(f.temp)) else None))
  }

  /** A full rollback. */
  function RollbackAll(c: Conn): Conn {
    c.(autoCommit := true, poisoned := false, frames := [], staged := map[],
       main := if c.mainChanged then c.mainShared else c.main, mainChanged := false,
       temp := if c.tempChanged then Some(OrEmpty(c.tempCommitted)) else c.temp, tempChanged := false)
  }

  /** A commit that goes through: staged schemas are published and the temp schema becomes the one to fall back to. */
  function CommitAll(c: Conn): Conn {
    c.(autoCommit := true, poisoned := false, frames := [], mainShared := c.main, mainChanged := false,
       tempCommitted := if c.tempChanged then c.temp else c.tempCommitted, tempChanged := false,
       shared := c.shared + c.staged, staged := map[])
  }

  /** COMMIT of an open transaction: a poisoned one is rolled back and the commit refused. */
  function Commit(c: Conn): (Conn, bool) {
    if c.poisoned then (RollbackAll(c), false) else (CommitAll(c), true)
  }

  datatype Released = NotFound | Kept(c: Conn) | Committed(c: Conn, ok: bool)

  /** `release_named_savepoint_frame`; releasing the savepoint that began the transaction commits it. */
  function Release(c: Conn, name: string): Released {
    match LastNamed(c.frames, name)
    case None => NotFound
    case Some(i) =>
      if c.frames[i].startsTransaction && i == 0 then Committed(Commit(c).0, Commit(c).1)
      else Kept(c.(frames := c.frames[..i]))
  }

  datatype Change = MainDdl(ddl: string) | TempDdl(ddl: string) | AttachedDdl(db: nat, ddl: string)

  /** `with_database_schema_mut` for each kind of database. */
  function ApplyChange(c: Conn, change: Change): Conn {
    match change
    case MainDdl(ddl) => c.(main := c.main + [ddl], mainChanged := true)
    case TempDdl(ddl) => c.(temp := Some(OrEmpty(c.temp) + [ddl]), tempChanged := true)
    case AttachedDdl(db, ddl) =>
      if db in c.shared then c.(staged := c.staged[db := Seen(c.staged, c.shared, db) + [ddl]]) else c
  }

  /** `cached_non_main_schema`: a connection sees its own staged version first. */
  function Seen(staged: map<nat, Schema>, shared: map<nat, Schema>, db: nat): Schema {
    if db in staged then staged[db] else if db in shared then shared[db] else []
  }

  datatype Event =
    | Begin
    | Savepoint(name: string)
    | ReleaseTo(name: string)
    | RollbackToSavepoint(name: string)
    | Ddl(change: Change)
    | AbandonWrite
    | CommitTx
    | RollbackTx
    | ResetTemp

  /** One statement. Those that are refused leave the connection as it is. */
  function Step(c: Conn, e: Event): Conn {
    match e
    case Begin => if c.autoCommit then c.(autoCommit := false) else c
    case Savepoint(name) => OpenSavepoint(c, name)
    case ReleaseTo(name) => (match Release(c, name) case NotFound => c case Kept(d) => d case Committed(d, _) => d)
    case RollbackToSavepoint(name) => (match RollbackTo(c, name) case None => c case Some(d) => d)
    case Ddl(change) => if c.autoCommit then CommitAll(ApplyChange(c, change)) else ApplyChange(c, change)
    case AbandonWrite => if c.autoCommit then c else c.(poisoned := true)
    case CommitTx => if c.autoCommit then c else Commit(c).0
    case RollbackTx => if c.autoCommit then c else RollbackAll(c)
    case ResetTemp =>
      if !c.autoCommit && c.temp.Some? then c else c.(temp := None, tempCommitted := None, tempChanged := false)
  }

  function Run(c: Conn, events: seq<Event>): Conn {
    if events == [] then c else Step(Run(c, events[..|events| - 1]), events[|events| - 1])
  }

  function Fresh(attached: set<nat>): Conn {
    Conn(true, false, [], [], [], false, None, None, false, map[], map db | db in attached :: [])
  }

  // ----- The reference: a log that is cut back

  datatype Item = Changed(change: Change) | Abandoned

  datatype Mark = Mark(name: string, startsTransaction: bool, position: nat)

  /** What has been committed, what the open transaction has done that still stands, and where its live
      savepoints lie in that. */
  datatype Log = Log(committed: seq<Item>, pending: seq<Item>, marks: seq<Mark>, open: bool) {
    function All(): seq<Item> {
      committed + pending
    }
  }

  function LastMark(marks: seq<Mark>, name: string): (r: Option<nat>)
    ensures r.Some? ==> r.value < |marks|
  {
    if marks == [] then None
    else if marks[|marks| - 1].name == name then Some(|marks| - 1)
    else LastMark(marks[..|marks| - 1], name)
  }

  /** The transaction takes effect unless an abandoned write is still in it. */
  function Finish(log: Log): Log {
    if Abandoned in log.pending then Log(log.committed, [], [], false) else Log(log.All(), [], [], false)
  }

  function Prefix(items: seq<Item>, n: nat): seq<Item> {
    if n <= |items| then items[..n] else items
  }

  function LogStep(log: Log, attached: set<nat>, e: Event): Log {
    match e
    case Begin => log.(open := true)
    case Savepoint(name) => log.(marks := log.marks + [Mark(name, !log.open, |log.pending|)], open := true)
    case ReleaseTo(name) =>
      (match LastMark(log.marks, name)
       case None => log
       case Some(i) => if log.marks[i].startsTransaction && i == 0 then Finish(log) else log.(marks := log.marks[..i]))
    case RollbackToSavepoint(name) =>
      (match LastMark(log.marks, name)
       case None => log
       case Some(i) => log.(pending := Prefix(log.pending, log.marks[i].position), marks := log.marks[..i + 1]))
    case Ddl(change) =>
      if change.AttachedDdl? && change.db !in attached then log
      else if log.open then log.(pending := log.pending + [Changed(change)])
      else log.(committed := log.committed + [Changed(change)])
    case AbandonWrite => if log.open then log.(pending := log.pending + [Abandoned]) else log
    case CommitTx => if log.open then Finish(log) else log
    case RollbackTx => if log.open then Log(log.committed, [], [], false) else log
    case ResetTemp => if log.open then log else log.(committed := WithoutTemp(log.committed))
  }

  function WithoutTemp(items: seq<Item>): seq<Item> {
    if items == [] then []
    else
      var last := items[|items| - 1];
      var before := WithoutTemp(items[..|items| - 1]);
      if Concerns(last, Temp) then before else before + [last]
  }

  function LogRun(attached: set<nat>, events: seq<Event>): Log {
    if events == [] then Log([], [], [], false)
    else LogStep(LogRun(attached, events[..|events| - 1]), attached, events[|events| - 1])
  }

  /** The three kinds of schema, replayed from a log. */
  datatype Database = Main | Temp | Attached(db: nat)

  predicate Concerns(item: Item, d: Database) {
    item.Changed? && match item.change
                     case MainDdl(_) => d == Main
                     case TempDdl(_) => d == Temp
                     case AttachedDdl(db, _) => d == Attached(db)
  }

  function Replay(items: seq<Item>, d: Database): Schema {
    if items == [] then []
    else
      var last := items[|items| - 1];
      var before := Replay(items[..|items| - 1], d);
      if Concerns(last, d) then before + [last.change.ddl] else before
  }

  // ----- The connection agrees with the reference

  /** What the connection currently sees of a database. */
  function View(c: Conn, d: Database): Schema {
    match d
    case Main => c.main
    case Temp => OrEmpty(c.temp)
    case Attached(db) => Seen(c.staged, c.shared, db)
  }

  /** What a rollback would leave it with. */
  function Settled(c: Conn, d: Database): Schema {
    match d
    case Main => c.mainShared
    case Temp => OrEmpty(c.tempCommitted)
    case Attached(db) => Seen(map[], c.shared, db)
  }

  /** What a frame's snapshots hold of it. */
  function Snapshot(f: Frame, shared: map<nat, Schema>, d: Database): Schema {
    match d
    case Main => f.main
    case Temp => OrEmpty(f.temp)
    case Attached(db) => Seen(f.staged, shared, db)
  }

  /** No item concerns the database. */
  predicate Quiet(items: seq<Item>, d: Database) {
    forall i :: 0 <= i < |items| ==> !Concerns(items[i], d)
  }

  ghost predicate FrameAgrees(f: Frame, m: Mark, c: Conn, log: Log, attached: set<nat>) {
    && f.name == m.name && f.startsTransaction == m.startsTransaction
    && m.position <= |log.pending|
    && f.staged.Keys <= attached
    && (f.temp.Some? ==> c.temp.Some?)
    && f.poisoned == (Abandoned in log.pending[..m.position])
    && forall d :: Snapshot(f, c.shared, d) == Replay(log.committed + log.pending[..m.position], d)
  }

  ghost predicate FramesAgree(c: Conn, log: Log, attached: set<nat>) {
    && |c.frames| == |log.marks|
    && (forall i :: 0 <= i < |c.frames| ==> FrameAgrees(c.frames[i], log.marks[i], c, log, attached))
    && forall i, j :: 0 <= i < j < |log.marks| ==> log.marks[i].position <= log.marks[j].position
  }

  /** Every schema and every snapshot is what replaying the log gives, and the connection is poisoned exactly
      while an abandoned write stands. */
  ghost predicate Agrees(c: Conn, log: Log, attached: set<nat>) {
    && c.autoCommit == !log.open
    && (!log.open ==> log.pending == [] && log.marks == [])
    && c.poisoned == (Abandoned in log.pending)
    && c.shared.Keys == attached && c.staged.Keys <= attached
    && (c.tempChanged ==> c.temp.Some?)
    && (!c.mainChanged ==> Quiet(log.pending, Main))
    && (!c.tempChanged ==> Quiet(log.pending, Temp))
    && (forall d :: View(c, d) == Replay(log.All(), d))
    && (forall d :: Settled(c, d) == Replay(log.committed, d))
    && FramesAgree(c, log, attached)
  }

  lemma {:induction false} QuietIsInvisible(items: seq<Item>, quiet: seq<Item>, d: Database)
    requires Quiet(quiet, d)
    ensures Replay(items + quiet, d) == Replay(items, d)
  {
    if quiet == [] {
      assert items + quiet == items;
    } else {
      var n := |quiet| - 1;
      QuietIsInvisible(items, quiet[..n], d);
      assert (items + quiet)[..|items + quiet| - 1] == items + quiet[..n];
    }
  }

  lemma {:induction false} WithoutTempReplays(items: seq<Item>, d: Database)
    ensures Replay(WithoutTemp(items), d) == if d == Temp then [] else Replay(items, d)
  {
    if items != [] {
      var n := |items| - 1;
      WithoutTempReplays(items[..n], d);
      var rest := WithoutTemp(items[..n]);
      assert (rest + [items[n]])[..|rest|] == rest;
    }
  }

  lemma {:induction false} SameSavepoint(frames: seq<Frame>, marks: seq<Mark>, name: string)
    requires |frames| == |marks|
    requires forall i :: 0 <= i < |frames| ==> frames[i].name == marks[i].name
    ensures LastNamed(frames, name) == LastMark(marks, name)
  {
    if frames != [] {
      SameSavepoint(frames[..|frames| - 1], marks[..|marks| - 1], name);
    }
  }

  lemma ReplayOfPush(items: seq<Item>, item: Item, d: Database)
    ensures Replay(items + [item], d) ==
            if Concerns(item, d) then Replay(items, d) + [item.change.ddl] else Replay(items, d)
  {
  }

  lemma ReplayOfAppended(a: seq<Item>, b: seq<Item>, item: Item, d: Database)
    ensures Replay(a + (b + [item]), d) ==
            if Concerns(item, d) then Replay(a + b, d) + [item.change.ddl] else Replay(a + b, d)
  {
    assert a + (b + [item]) == (a + b) + [item];
    ReplayOfPush(a + b, item, d);
  }

  /** Frames below a cut are unaffected by what lies above it. */
  lemma FramesOutlive(c: Conn, log: Log, c': Conn, log': Log, attached: set<nat>, n: nat)
    requires FramesAgree(c, log, attached) && n <= |c.frames|
    requires c'.frames == c.frames[..n] && log'.marks == log.marks[..n]
    requires log'.committed == log.committed && c'.shared == c.shared && (c.temp.Some? ==> c'.temp.Some?)
    requires forall i :: 0 <= i < n ==>
               log.marks[i].position <= |log'.pending| &&
               log'.pending[..log.marks[i].position] == log.pending[..log.marks[i].position]
    ensures FramesAgree(c', log', attached)
  {
  }

  lemma DdlInTransaction(c: Conn, log: Log, attached: set<nat>, change: Change)
    requires Agrees(c, log, attached) && log.open
    requires change.AttachedDdl? ==> change.db in attached
    ensures Agrees(ApplyChange(c, change), log.(pending := log.pending + [Changed(change)]), attached)
  {
    hide Replay, FramesAgree;
    var c' := ApplyChange(c, change);
    var log' := log.(pending := log.pending + [Changed(change)]);
    forall d ensures View(c', d) == Replay(log'.All(), d) {
      assert View(c, d) == Replay(log.All(), d);
      ReplayOfAppended(log.committed, log.pending, Changed(change), d);
    }
    forall d ensures Settled(c', d) == Replay(log'.committed, d) {
      assert Settled(c', d) == Settled(c, d);
    }
    PushKeepsFrames(c, log, attached, c', Changed(change));
    assert Concerns(Changed(change), Main) == change.MainDdl?;
    assert Concerns(Changed(change), Temp) == change.TempDdl?;
  }

  lemma PushKeepsFrames(c: Conn, log: Log, attached: set<nat>, c': Conn, item: Item)
    requires FramesAgree(c, log, attached)
    requires c'.frames == c.frames && c'.shared == c.shared && (c.temp.Some? ==> c'.temp.Some?)
    ensures FramesAgree(c', log.(pending := log.pending + [item]), attached)
  {
    var log' := log.(pending := log.pending + [item]);
    assert c.frames == c.frames[..|c.frames|] && log.marks == log.marks[..|c.frames|];
    forall i | 0 <= i < |c.frames|
      ensures log.marks[i].position <= |log'.pending|
      ensures log'.pending[..log.marks[i].position] == log.pending[..log.marks[i].position]
    {
      assert FrameAgrees(c.frames[i], log.marks[i], c, log, attached);
    }
    FramesOutlive(c, log, c', log', attached, |c.frames|);
  }

  lemma CommittedAgrees(c: Conn, log: Log, attached: set<nat>)
    requires Agrees(c, log, attached) && !c.poisoned
    ensures Agrees(CommitAll(c), Log(log.All(), [], [], false), attached)
  {
    hide Replay, FramesAgree;
    var c' := CommitAll(c);
    assert log.All() + [] == log.All();
    forall d
      ensures View(c', d) == Replay(log.All(), d)
      ensures Settled(c', d) == Replay(log.All(), d)
    {
      assert View(c, d) == Replay(log.All(), d) && Settled(c, d) == Replay(log.committed, d);
      if d == Temp && !c.tempChanged {
        QuietIsInvisible(log.committed, log.pending, d);
      }
    }
    NoFrames(c', Log(log.All(), [], [], false), attached);
  }

  lemma NoFrames(c: Conn, log: Log, attached: set<nat>)
    requires c.frames == [] && log.marks == []
    ensures FramesAgree(c, log, attached)
  {
  }

  lemma RolledBackAgrees(c: Conn, log: Log, attached: set<nat>)
    requires Agrees(c, log, attached)
    ensures Agrees(RollbackAll(c), Log(log.committed, [], [], false), attached)
  {
    hide Replay, FramesAgree;
    var c' := RollbackAll(c);
    assert log.committed + [] == log.committed;
    forall d
      ensures View(c', d) == Replay(log.committed, d)
      ensures Settled(c', d) == Replay(log.committed, d)
    {
      assert View(c, d) == Replay(log.All(), d) && Settled(c, d) == Replay(log.committed, d);
      if (d == Temp && !c.tempChanged) || (d == Main && !c.mainChanged) {
        QuietIsInvisible(log.committed, log.pending, d);
      }
    }
    NoFrames(c', Log(log.committed, [], [], false), attached);
  }

  lemma FinishAgrees(c: Conn, log: Log, attached: set<nat>)
    requires Agrees(c, log, attached) && log.open
    ensures Agrees(Commit(c).0, Finish(log), attached)
  {
    hide Agrees;
    if c.poisoned {
      RolledBackAgrees(c, log, attached);
    } else {
      CommittedAgrees(c, log, attached);
    }
    PoisonedOf(c, log, attached);
  }

  lemma PoisonedOf(c: Conn, log: Log, attached: set<nat>)
    requires Agrees(c, log, attached)
    ensures c.poisoned == (Abandoned in log.pending) && c.autoCommit == !log.open
    ensures c.shared.Keys == attached
    ensures log.open || (log.pending == [] && log.marks == [])
  {
  }

  lemma SavepointAgrees(c: Conn, log: Log, attached: set<nat>, name: string)
    requires Agrees(c, log, attached)
    ensures Agrees(OpenSavepoint(c, name), LogStep(log, attached, Savepoint(name)), attached)
  {
    hide Replay;
    var c' := OpenSavepoint(c, name);
    var log' := LogStep(log, attached, Savepoint(name));
    var n := |log.marks|;
    assert log.pending[..|log.pending|] == log.pending;
    forall d
      ensures View(c', d) == Replay(log'.All(), d) && Settled(c', d) == Replay(log'.committed, d)
      ensures Snapshot(c'.frames[n], c'.shared, d) == Replay(log.All(), d)
    {
      assert View(c, d) == Replay(log.All(), d) && Settled(c, d) == Replay(log.committed, d);
    }
    forall i | 0 <= i <= n ensures FrameAgrees(c'.frames[i], log'.marks[i], c', log', attached) {
      if i < n {
        assert FrameAgrees(c.frames[i], log.marks[i], c, log, attached);
        assert c'.frames[i] == c.frames[i] && log'.marks[i] == log.marks[i];
      }
    }
  }

  lemma RollbackToAgrees(c: Conn, log: Log, attached: set<nat>, name: string)
    requires Agrees(c, log, attached)
    requires LastNamed(c.frames, name).Some?
    ensures LastMark(log.marks, name) == LastNamed(c.frames, name)
    ensures Agrees(RollbackTo(c, name).value, LogStep(log, attached, RollbackToSavepoint(name)), attached)
  {
    hide Replay, LastNamed, LastMark;
    SavepointOf(c, log, attached, name);
    var i := LastNamed(c.frames, name).value;
    var c', log' := RollbackTo(c, name).value, LogStep(log, attached, RollbackToSavepoint(name));
    assert FrameAgrees(c.frames[i], log.marks[i], c, log, attached);
    forall d
      ensures View(c', d) == Replay(log'.All(), d) && Settled(c', d) == Replay(log'.committed, d)
    {
      assert Snapshot(c.frames[i], c.shared, d) == Replay(log'.All(), d);
      assert Settled(c, d) == Replay(log.committed, d);
    }
    assert Quiet(log.pending, Main) ==> Quiet(log'.pending, Main);
    assert Quiet(log.pending, Temp) ==> Quiet(log'.pending, Temp);
    FramesOutlive(c, log, c', log', attached, i + 1);
  }

  lemma SavepointOf(c: Conn, log: Log, attached: set<nat>, name: string)
    requires Agrees(c, log, attached)
    ensures LastMark(log.marks, name) == LastNamed(c.frames, name)
    ensures |c.frames| == |log.marks|
    ensures forall i :: 0 <= i < |c.frames| ==> c.frames[i].startsTransaction == log.marks[i].startsTransaction
  {
    forall i | 0 <= i < |c.frames|
      ensures c.frames[i].startsTransaction == log.marks[i].startsTransaction && c.frames[i].name == log.marks[i].name
    {
      assert FrameAgrees(c.frames[i], log.marks[i], c, log, attached);
    }
    SameSavepoint(c.frames, log.marks, name);
  }

  lemma ReleaseAgrees(c: Conn, log: Log, attached: set<nat>, name: string)
    requires Agrees(c, log, attached)
    ensures Agrees(Step(c, ReleaseTo(name)), LogStep(log, attached, ReleaseTo(name)), attached)
  {
    hide Replay, LastNamed, LastMark, FramesAgree;
    SavepointOf(c, log, attached, name);
    if LastNamed(c.frames, name).Some? {
      var i := LastNamed(c.frames, name).value;
      if c.frames[i].startsTransaction && i == 0 {
        PoisonedOf(c, log, attached);
        FinishAgrees(c, log, attached);
      } else {
        var c', log' := c.(frames := c.frames[..i]), log.(marks := log.marks[..i]);
        CutKeepsFrames(c, log, attached, i);
        forall d ensures View(c', d) == Replay(log'.All(), d) && Settled(c', d) == Replay(log'.committed, d) {
          assert View(c, d) == Replay(log.All(), d) && Settled(c, d) == Replay(log.committed, d);
        }
      }
    }
  }

  lemma CutKeepsFrames(c: Conn, log: Log, attached: set<nat>, n: nat)
    requires FramesAgree(c, log, attached) && n <= |c.frames|
    ensures FramesAgree(c.(frames := c.frames[..n]), log.(marks := log.marks[..n]), attached)
  {
  }

  lemma AbandonAgrees(c: Conn, log: Log, attached: set<nat>)
    requires Agrees(c, log, attached) && log.open
    ensures Agrees(c.(poisoned := true), log.(pending := log.pending + [Abandoned]), attached)
  {
    hide Replay, FramesAgree;
    var c', log' := c.(poisoned := true), log.(pending := log.pending + [Abandoned]);
    forall d ensures View(c', d) == Replay(log'.All(), d) && Settled(c', d) == Replay(log'.committed, d) {
      assert View(c, d) == Replay(log.All(), d) && Settled(c, d) == Replay(log.committed, d);
      ReplayOfAppended(log.committed, log.pending, Abandoned, d);
    }
    PushKeepsFrames(c, log, attached, c', Abandoned);
  }

  lemma BeginAgrees(c: Conn, log: Log, attached: set<nat>)
    requires Agrees(c, log, attached) && !log.open
    ensures Agrees(c.(autoCommit := false), log.(open := true), attached)
  {
    hide Replay;
    var c', log' := c.(autoCommit := false), log.(open := true);
    forall d ensures View(c', d) == Replay(log'.All(), d) && Settled(c', d) == Replay(log'.committed, d) {
      assert View(c, d) == Replay(log.All(), d) && Settled(c, d) == Replay(log.committed, d);
    }
  }

  lemma ResetAgrees(c: Conn, log: Log, attached: set<nat>)
    requires Agrees(c, log, attached)
    ensures Agrees(Step(c, ResetTemp), LogStep(log, attached, ResetTemp), attached)
  {
    hide Replay, FramesAgree;
    if !log.open {
      var c', log' := Step(c, ResetTemp), LogStep(log, attached, ResetTemp);
      assert log.All() == log.committed && log'.All() == log'.committed;
      forall d ensures View(c', d) == Replay(log'.All(), d) && Settled(c', d) == Replay(log'.committed, d) {
        assert View(c, d) == Replay(log.All(), d) && Settled(c, d) == Replay(log.committed, d);
        WithoutTempReplays(log.committed, d);
      }
      FramelessOutside(c, log, attached);
      NoFrames(c', log', attached);
    } else if c.temp.None? {
      ResetOfNothing(c, log, attached);
    }
  }

  lemma FramelessOutside(c: Conn, log: Log, attached: set<nat>)
    requires Agrees(c, log, attached) && !log.open
    ensures c.frames == []
  {
  }

  /** Inside a transaction a reset goes through only when there is no temp database, and then changes nothing. */
  lemma ResetOfNothing(c: Conn, log: Log, attached: set<nat>)
    requires Agrees(c, log, attached) && c.temp.None?
    ensures Agrees(c.(temp := None, tempCommitted := None, tempChanged := false), log, attached)
  {
    hide Replay;
    var c' := c.(temp := None, tempCommitted := None, tempChanged := false);
    forall d ensures View(c', d) == Replay(log.All(), d) && Settled(c', d) == Replay(log.committed, d) {
      assert View(c, d) == Replay(log.All(), d) && Settled(c, d) == Replay(log.committed, d);
      QuietIsInvisible(log.committed, log.pending, Temp);
    }
    assert FramesAgree(c', log, attached) by {
      forall i | 0 <= i < |c.frames| ensures FrameAgrees(c.frames[i], log.marks[i], c', log, attached) {
        assert FrameAgrees(c.frames[i], log.marks[i], c, log, attached);
      }
    }
  }

  lemma DdlAgrees(c: Conn, log: Log, attached: set<nat>, change: Change)
    requires Agrees(c, log, attached)
    ensures Agrees(Step(c, Ddl(change)), LogStep(log, attached, Ddl(change)), attached)
  {
    hide Agrees, ApplyChange;
    PoisonedOf(c, log, attached);
    if change.AttachedDdl? && change.db !in attached {
      assert ApplyChange(c, change) == c by {
        UnknownDatabase(c, change);
      }
      if c.autoCommit {
        CommittedAgrees(c, log, attached);
        assert log.All() == log.committed;
        assert log == Log(log.All(), [], [], false);
      }
    } else if log.open {
      DdlInTransaction(c, log, attached, change);
    } else {
      BeginAgrees(c, log, attached);
      var open := log.(open := true);
      DdlInTransaction(c.(autoCommit := false), open, attached, change);
      var done := open.(pending := open.pending + [Changed(change)]);
      var c' := ApplyChange(c.(autoCommit := false), change);
      PoisonedOf(c', done, attached);
      CommittedAgrees(c', done, attached);
      assert done.All() == log.committed + [Changed(change)];
      CommitForgetsAutoCommit(c, change);
    }
  }

  lemma UnknownDatabase(c: Conn, change: Change)
    requires change.AttachedDdl? && change.db !in c.shared
    ensures ApplyChange(c, change) == c
  {
  }

  lemma CommitForgetsAutoCommit(c: Conn, change: Change)
    ensures CommitAll(ApplyChange(c.(autoCommit := false), change)) == CommitAll(ApplyChange(c, change))
  {
  }

  lemma StepAgrees(c: Conn, log: Log, attached: set<nat>, e: Event)
    requires Agrees(c, log, attached)
    ensures Agrees(Step(c, e), LogStep(log, attached, e), attached)
  {
    hide Agrees, Release, RollbackAll, Commit, Finish, LastNamed, LastMark, ApplyChange;
    PoisonedOf(c, log, attached);
    match e
    case Begin => if !log.open { BeginAgrees(c, log, attached); }
    case Savepoint(name) => SavepointAgrees(c, log, attached, name);
    case ReleaseTo(name) => ReleaseAgrees(c, log, attached, name);
    case RollbackToSavepoint(name) =>
      SavepointOf(c, log, attached, name);
      if LastNamed(c.frames, name).Some? {
        RollbackToAgrees(c, log, attached, name);
      }
    case Ddl(change) => DdlAgrees(c, log, attached, change);
    case AbandonWrite => if log.open { AbandonAgrees(c, log, attached); }
    case CommitTx => if log.open { FinishAgrees(c, log, attached); }
    case RollbackTx => if log.open { RolledBackAgrees(c, log, attached); }
    case ResetTemp => ResetAgrees(c, log, attached);
  }

  /** After any sequence of statements the connection's schemas, snapshots and poisoning are those of the log. */
  lemma {:induction false} EveryRunAgrees(attached: set<nat>, events: seq<Event>)
    ensures Agrees(Run(Fresh(attached), events), LogRun(attached, events), attached)
  {
    if events != [] {
      EveryRunAgrees(attached, events[..|events| - 1]);
      StepAgrees(Run(Fresh(attached), events[..|events| - 1]), LogRun(attached, events[..|events| - 1]), attached,
                 events[|events| - 1]);
    }
  }

  // ----- What that means for a reader of the statements

  /** The log entries below a live savepoint stay put for as long as the savepoint does. */
  predicate Below(log: Log, start: Log, k: nat) {
    && k < |start.marks| && k < |log.marks|
    && log.marks[..k + 1] == start.marks[..k + 1]
    && log.committed == start.committed && log.open == start.open
    && start.marks[k].position <= |start.pending| && start.marks[k].position <= |log.pending|
    && log.pending[..start.marks[k].position] == start.pending[..start.marks[k].position]
  }

  lemma StepStaysBelow(c: Conn, log: Log, start: Log, attached: set<nat>, k: nat, e: Event)
    requires Agrees(c, log, attached) && Below(log, start, k)
    requires k < |LogStep(log, attached, e).marks|
    ensures Below(LogStep(log, attached, e), start, k)
  {
  }

  lemma {:induction false} RunStaysBelow(attached: set<nat>, before: seq<Event>, during: seq<Event>, k: nat)
    requires Below(LogRun(attached, before), LogRun(attached, before), k)
    requires forall n :: 0 <= n <= |during| ==> k < |Run(Fresh(attached), before + during[..n]).frames|
    ensures Below(LogRun(attached, before + during), LogRun(attached, before), k)
  {
    hide Agrees, Below, LogStep, Step;
    if during == [] {
      assert before + during == before;
    } else {
      var n := |during| - 1;
      forall i | 0 <= i <= n ensures k < |Run(Fresh(attached), before + during[..n][..i]).frames| {
        assert during[..n][..i] == during[..i];
      }
      RunStaysBelow(attached, before, during[..n], k);
      var events := before + during;
      assert events[..|events| - 1] == before + during[..n] && during[..|during|] == during;
      EveryRunAgrees(attached, before + during[..n]);
      EveryRunAgrees(attached, events);
      SavepointOf(Run(Fresh(attached), events), LogRun(attached, events), attached, "");
      StepStaysBelow(Run(Fresh(attached), before + during[..n]), LogRun(attached, before + during[..n]),
                     LogRun(attached, before), attached, k, events[|events| - 1]);
    }
  }

  /** ROLLBACK TO undoes everything since the savepoint, whatever it was, as long as the savepoint stayed live:
      every schema, the poisoning and the savepoint stack are as they were right after SAVEPOINT. */
  lemma RollbackToUndoesAll(attached: set<nat>, before: seq<Event>, name: string, during: seq<Event>)
    requires forall n :: 0 <= n <= |during| ==>
               |Run(Fresh(attached), before + [Savepoint(name)] + during[..n]).frames| >=
               |Run(Fresh(attached), before + [Savepoint(name)]).frames|
    requires LastNamed(Run(Fresh(attached), before + [Savepoint(name)] + during).frames, name) ==
             LastNamed(Run(Fresh(attached), before + [Savepoint(name)]).frames, name)
    ensures var start := Run(Fresh(attached), before + [Savepoint(name)]);
            var end := Run(Fresh(attached), before + [Savepoint(name)] + during + [RollbackToSavepoint(name)]);
            && end.poisoned == start.poisoned && end.autoCommit == start.autoCommit
            && |end.frames| == |start.frames| && LastNamed(end.frames, name) == LastNamed(start.frames, name)
            && forall d :: View(end, d) == View(start, d) && Settled(end, d) == Settled(start, d)
  {
    hide Agrees, Step, LogStep, View, Settled, Replay, FramesAgree, Below;
    var opening := before + [Savepoint(name)];
    var events := opening + during + [RollbackToSavepoint(name)];
    var start, end := Run(Fresh(attached), opening), Run(Fresh(attached), events);
    var log, done := LogRun(attached, opening), LogRun(attached, events);
    assert opening[..|before|] == before && events[..|events| - 1] == opening + during;
    var k := |start.frames| - 1;
    EveryRunAgrees(attached, opening);
    EveryRunAgrees(attached, events);
    EveryRunAgrees(attached, opening + during);
    OpenedLast(Run(Fresh(attached), before), log, LogRun(attached, before), attached, name, start);
    RunStaysBelow(attached, opening, during, k);
    SavepointOf(Run(Fresh(attached), opening + during), LogRun(attached, opening + during), attached, name);
    BackAtSavepoint(LogRun(attached, opening + during), log, attached, name, k);
    SameLogSameView(start, end, log, done, attached, name);
  }

  lemma OpenedLast(c: Conn, log: Log, prior: Log, attached: set<nat>, name: string, start: Conn)
    requires log == LogStep(prior, attached, Savepoint(name)) && start == Step(c, Savepoint(name))
    requires Agrees(start, log, attached)
    ensures start.frames != [] && |start.frames| == |log.marks|
    ensures LastNamed(start.frames, name) == Some(|start.frames| - 1)
    ensures log.marks[|start.frames| - 1].position == |log.pending|
    ensures Below(log, log, |start.frames| - 1)
  {
  }

  lemma BackAtSavepoint(log: Log, start: Log, attached: set<nat>, name: string, k: nat)
    requires Below(log, start, k) && LastMark(log.marks, name) == Some(k)
    requires k == |start.marks| - 1 && start.marks[k].position == |start.pending|
    ensures LogStep(log, attached, RollbackToSavepoint(name)) == start
  {
  }

  lemma SameLogSameView(a: Conn, b: Conn, log: Log, same: Log, attached: set<nat>, name: string)
    requires Agrees(a, log, attached) && Agrees(b, same, attached) && same == log
    ensures a.poisoned == b.poisoned && a.autoCommit == b.autoCommit && |a.frames| == |b.frames|
    ensures LastNamed(a.frames, name) == LastNamed(b.frames, name)
    ensures forall d :: View(b, d) == View(a, d) && Settled(b, d) == Settled(a, d)
  {
  }

  /** COMMIT goes through exactly when no abandoned write survives in the transaction, and then publishes every
      database as the transaction saw it; refused, it leaves every database as it was before. */
  lemma CommitIsAllOrNothing(attached: set<nat>, events: seq<Event>)
    requires !Run(Fresh(attached), events).autoCommit
    ensures var c := Run(Fresh(attached), events);
            var (c', ok) := Commit(c);
            && ok == (Abandoned !in LogRun(attached, events).pending)
            && c'.autoCommit && c'.frames == [] && !c'.poisoned
            && (forall d :: Settled(c', d) == if ok then View(c, d) else Settled(c, d))
            && forall d :: View(c', d) == Settled(c', d)
  {
    hide Replay, FramesAgree;
    var c, log := Run(Fresh(attached), events), LogRun(attached, events);
    EveryRunAgrees(attached, events);
    FinishAgrees(c, log, attached);
    forall d
      ensures Settled(Commit(c).0, d) == if Commit(c).1 then View(c, d) else Settled(c, d)
      ensures View(Commit(c).0, d) == Settled(Commit(c).0, d)
    {
      assert View(c, d) == Replay(log.All(), d) && Settled(c, d) == Replay(log.committed, d);
      assert View(Commit(c).0, d) == Replay(Finish(log).All(), d);
      assert Settled(Commit(c).0, d) == Replay(Finish(log).committed, d);
      assert Finish(log).All() == Finish(log).committed;
    }
  }

  /** ROLLBACK leaves every database, temp included, with the DDL committed so far: for temp, since its last reset. */
  lemma RollbackLeavesCommitted(attached: set<nat>, events: seq<Event>, d: Database)
    requires !Run(Fresh(attached), events).autoCommit
    ensures var c := Step(Run(Fresh(attached), events), RollbackTx);
            && View(c, d) == Settled(c, d) == Replay(LogRun(attached, events).committed, d)
            && c.autoCommit && !c.poisoned && c.frames == []
  {
    hide Replay, FramesAgree;
    var c, log := Run(Fresh(attached), events), LogRun(attached, events);
    EveryRunAgrees(attached, events);
    RolledBackAgrees(c, log, attached);
    assert Log(log.committed, [], [], false).All() == log.committed;
  }

  // ----- The connection's own methods

  class Connection {
    var autoCommit: bool
    var poisoned: bool
    var namedSavepoints: seq<Frame>
    var schema: Schema
    var sharedSchema: Schema
    var schemaDidChange: bool
    var temp: Option<Schema>
    var tempCommitted: Option<Schema>
    var tempDidChange: bool
    var databaseSchemas: map<nat, Schema>
    var attachedSchemas: map<nat, Schema>

    function Fields(): Conn
      reads this
    {
      Conn(autoCommit, poisoned, namedSavepoints, schema, sharedSchema, schemaDidChange,
           temp, tempCommitted, tempDidChange, databaseSchemas, attachedSchemas)
    }

    constructor (attached: set<nat>)
      ensures Fields() == Fresh(attached)
    {
      autoCommit, poisoned, namedSavepoints := true, false, [];
      schema, sharedSchema, schemaDidChange := [], [], false;
      temp, tempCommitted, tempDidChange := None, None, false;
      databaseSchemas, attachedSchemas := map[], map db | db in attached :: [];
    }

    /** The innermost savepoint of a name, searching from the end. */
    method FindSavepoint(name: string) returns (found: Option<nat>)
      ensures found == LastNamed(namedSavepoints, name)
    {
      var i := |namedSavepoints|;
      while i > 0
        invariant 0 <= i <= |namedSavepoints|
        invariant LastNamed(namedSavepoints, name) == LastNamed(namedSavepoints[..i], name)
      {
        if namedSavepoints[i - 1].name == name {
          return Some(i - 1);
        }
        assert namedSavepoints[..i][..i - 1] == namedSavepoints[..i - 1];
        i := i - 1;
      }
      return None;
    }

    method BeginSavepoint(name: string)
      modifies this
      ensures Fields() == OpenSavepoint(old(Fields()), name)
    {
      namedSavepoints := namedSavepoints + [Frame(name, autoCommit, poisoned, schema, temp, databaseSchemas)];
      if autoCommit {
        autoCommit := false;
      }
    }

    method ReleaseSavepoint(name: string) returns (found: bool)
      modifies this
      ensures found == !Release(old(Fields()), name).NotFound?
      ensures Fields() == Step(old(Fields()), ReleaseTo(name))
    {
      hide LastNamed;
      var target := FindSavepoint(name);
      found := target.Some?;
      if found {
        if namedSavepoints[target.value].startsTransaction && target.value == 0 {
          var _ := CommitTransaction();
        } else {
          namedSavepoints := namedSavepoints[..target.value];
        }
      }
    }

    method RollbackToSavepoint(name: string) returns (found: bool)
      modifies this
      ensures found == RollbackTo(old(Fields()), name).Some?
      ensures Fields() == Step(old(Fields()), Event.RollbackToSavepoint(name))
    {
      hide LastNamed;
      var target := FindSavepoint(name);
      found := target.Some?;
      if found {
        var frame := namedSavepoints[target.value];
        namedSavepoints := namedSavepoints[..target.value + 1];
        schema := frame.main;
        if temp.Some? {
          match frame.temp {
            case Some(snapshot) => temp := Some(snapshot);
            case None => temp := Some([]);
          }
        }
        databaseSchemas := frame.staged;
        poisoned := frame.poisoned;
      }
    }

    /** A schema mutation; the first one of an attached database stages a copy of the published schema. */
    method ChangeSchema(change: Change)
      modifies this
      ensures Fields() == ApplyChange(old(Fields()), change)
    {
      match change
      case MainDdl(ddl) =>
        schema, schemaDidChange := schema + [ddl], true;
      case TempDdl(ddl) =>
        if temp.None? {
          temp := Some([]);
        }
        temp, tempDidChange := Some(temp.value + [ddl]), true;
      case AttachedDdl(db, ddl) =>
        if db in attachedSchemas {
          if db !in databaseSchemas {
            databaseSchemas := databaseSchemas[db := attachedSchemas[db]];
          }
          databaseSchemas := databaseSchemas[db := databaseSchemas[db] + [ddl]];
        }
    }

    method CommitTempSchema()
      modifies `tempCommitted, `tempDidChange
      ensures tempCommitted == if old(tempDidChange) then temp else old(tempCommitted)
      ensures !tempDidChange
    {
      if tempDidChange {
        tempCommitted := temp;
        tempDidChange := false;
      }
    }

    method RollbackTempSchema()
      modifies `temp, `tempDidChange
      ensures temp == if old(tempDidChange) then Some(OrEmpty(tempCommitted)) else old(temp)
      ensures !tempDidChange
    {
      if tempDidChange {
        match tempCommitted {
          case Some(snapshot) => temp := Some(snapshot);
          case None => temp := Some([]);
        }
        tempDidChange := false;
      }
    }

    method RollbackTransaction()
      modifies this
      ensures Fields() == RollbackAll(old(Fields()))
    {
      if schemaDidChange {
        schema := sharedSchema;
      }
      schemaDidChange := false;
      databaseSchemas := map[];
      RollbackTempSchema();
      autoCommit, poisoned := true, false;
      namedSavepoints := [];
    }

    method CommitTransaction() returns (ok: bool)
      modifies this
      ensures (Fields(), ok) == Commit(old(Fields()))
    {
      if poisoned {
        RollbackTransaction();
        return false;
      }
      autoCommit := true;
      sharedSchema, schemaDidChange := schema, false;
      attachedSchemas, databaseSchemas := attachedSchemas + databaseSchemas, map[];
      CommitTempSchema();
      namedSavepoints := [];
      return true;
    }

    method ResetTempDatabase()
      modifies this
      ensures Fields() == Step(old(Fields()), ResetTemp)
    {
      if autoCommit || temp.None? {
        temp, tempCommitted, tempDidChange := None, None, false;
      }
    }
  }
}
