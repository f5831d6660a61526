/** Who may change an attached database's schema, and when: the writer lock, the schema cookie check, and the order in
    which a commit publishes its staged schema and gives up the lock (`core/vdbe/execute.rs`, `core/vdbe/mod.rs`,
    `core/mvcc/database/mod.rs`, `core/statement.rs`). In WAL mode a connection publishes while it still holds the
    lock; in MVCC mode the lock is gone by then. */
module AttachedCommit {
  import opened Common

  type Schema = seq<string>

  /** Where a connection's transaction on the attached database is. `Writing` holds the lock; `checked` tells that the
      statement about to run has passed the cookie check. After a commit or rollback the staged schema is dealt with
      and the lock released, in the order of the mode. */
  datatype Phase =
    | Idle
    | Writing(checked: bool)
    | Committed
    | CommittedFree
    | PublishedHeld
    | RolledBack
    | RolledBackFree
    | DiscardedHeld

  /** `prepared` is the cookie of the schema the current statement was translated against. */
  datatype Connection = Connection(phase: Phase, prepared: Option<nat>, staged: Option<Schema>, pending: seq<string>)

  /** How the protocol is put together. The source runs `Mode(true, true)` in WAL mode and `Mode(false, true)` in
      MVCC mode. */
  datatype Mode = Mode(publishesFirst: bool, checksCookie: bool)

  /** The committed DDL, whose length is the cookie in the database header, and the shared in-memory schema. */
  datatype World = World(committed: Schema, shared: Schema, writer: Option<nat>, connections: map<nat, Connection>)

  datatype Action =
    | Prepare
    | TakeWriter
    | CheckCookie
    | Mutate(ddl: string)
    | Commit
    | Publish
    | Rollback
    | Discard
    | Release

  function Reads(w: World, me: Connection): Schema {
    if me.staged.Some? then me.staged.value else w.shared
  }

  function Put(w: World, c: nat, me: Connection): World {
    w.(connections := w.connections[c := me])
  }

  /** One step of one connection; a step that is not enabled changes nothing. */
  function Next(mode: Mode, w: World, c: nat, a: Action): World {
    if c !in w.connections then w
    else
      var me := w.connections[c];
      match a
      case Prepare =>
        if me.phase.Idle? || me.phase.Writing? then Put(w, c, me.(prepared := Some(|Reads(w, me)|))) else w
      case TakeWriter =>
        if me.phase.Idle? && w.writer.None? then Put(w, c, me.(phase := Writing(false))).(writer := Some(c)) else w
      case CheckCookie =>
        if me.phase.Writing? && (mode.checksCookie ==> me.prepared == Some(|w.committed| + |me.pending|))
        then Put(w, c, me.(phase := Writing(true))) else w
      case Mutate(ddl) =>
        if me.phase == Writing(true)
        then Put(w, c, me.(phase := Writing(false), staged := Some(Reads(w, me) + [ddl]), pending := me.pending + [ddl]))
        else w
      case Commit =>
        if me.phase.Writing?
        then Put(w, c, me.(phase := Committed, pending := [])).(committed := w.committed + me.pending) else w
      case Publish =>
        if (mode.publishesFirst && me.phase.Committed?) || (!mode.publishesFirst && me.phase.CommittedFree?)
        then
          Put(w, c, me.(phase := if mode.publishesFirst then PublishedHeld else Idle, prepared := None, staged := None))
          .(shared := Reads(w, me))
        else w
      case Rollback =>
        if me.phase.Writing? then Put(w, c, me.(phase := RolledBack, pending := [])) else w
      case Discard =>
        if (mode.publishesFirst && me.phase.RolledBack?) || (!mode.publishesFirst && me.phase.RolledBackFree?)
        then
          Put(w, c, me.(phase := if mode.publishesFirst then DiscardedHeld else Idle, prepared := None, staged := None))
        else w
      case Release =>
        if me.phase.PublishedHeld? || me.phase.DiscardedHeld? then Put(w, c, me.(phase := Idle)).(writer := None)
        else if !mode.publishesFirst && me.phase.Committed? then
          Put(w, c, me.(phase := CommittedFree)).(writer := None)
        else if !mode.publishesFirst && me.phase.RolledBack? then
          Put(w, c, me.(phase := RolledBackFree)).(writer := None)
        else w
  }

  datatype Step = Step(connection: nat, action: Action)

  function Run(mode: Mode, ids: set<nat>, steps: seq<Step>): World {
    if steps == [] then World([], [], None, map c | c in ids :: Connection(Idle, None, None, []))
    else
      var last := steps[|steps| - 1];
      Next(mode, Run(mode, ids, steps[..|steps| - 1]), last.connection, last.action)
  }

  // ----- What every interleaving keeps

  predicate Holds(p: Phase) {
    p.Writing? || p.Committed? || p.PublishedHeld? || p.RolledBack? || p.DiscardedHeld?
  }

  /** Committed DDL that is not yet in the shared schema. */
  predicate Unpublished(me: Connection) {
    (me.phase.Committed? || me.phase.CommittedFree?) && me.staged.Some?
  }

  predicate IsUnpublished(w: World, c: nat) {
    c in w.connections && Unpublished(w.connections[c])
  }

  predicate HasUnpublished(w: World) {
    exists c :: c in w.connections && IsUnpublished(w, c)
  }

  predicate Sound(mode: Mode, w: World, c: nat, me: Connection) {
    && (Holds(me.phase) <==> w.writer == Some(c))
    && (me.phase.Writing? || me.pending == [])
    && (me.phase.Writing? ==> (me.staged.Some? <==> me.pending != []))
    && (me.phase in {Idle, PublishedHeld, DiscardedHeld} ==> me.staged.None?)
    && (me.staged.None? && me.prepared.Some? ==> me.prepared.value <= |w.shared|)
    && (me.phase.Writing? && (me.staged.Some? || me.phase.checked) ==> !HasUnpublished(w))
    && (me.phase.Writing? && me.staged.Some? ==> me.staged.value == w.committed + me.pending)
    && (Unpublished(me) ==> me.staged.value == w.committed && |w.shared| < |w.committed|)
    && (mode.publishesFirst ==> !me.phase.CommittedFree? && !me.phase.RolledBackFree?)
    && (!mode.publishesFirst ==> !me.phase.PublishedHeld? && !me.phase.DiscardedHeld?)
  }

  ghost predicate Invariant(mode: Mode, w: World) {
    && w.shared <= w.committed
    && (HasUnpublished(w) || w.shared == w.committed)
    && (forall c :: c in w.connections ==> Sound(mode, w, c, w.connections[c]))
    && forall c, d :: IsUnpublished(w, c) && IsUnpublished(w, d) ==> c == d
  }

  predicate Safe(mode: Mode) {
    mode.publishesFirst || mode.checksCookie
  }

  /** Whoever passes the check, or holds the lock where publishing comes first, sees every commit published. */
  lemma CheckedSeesAll(mode: Mode, w: World, c: nat)
    requires Safe(mode) && Invariant(mode, w) && c in w.connections && w.connections[c].phase.Writing?
    requires mode.checksCookie ==> w.connections[c].prepared == Some(|w.committed| + |w.connections[c].pending|)
    ensures !HasUnpublished(w) && w.shared == w.committed
  {
    assert Sound(mode, w, c, w.connections[c]);
    forall d | d in w.connections ensures !IsUnpublished(w, d) {
      assert Sound(mode, w, d, w.connections[d]);
    }
  }

  lemma SameUnpublished(w: World, w': World, c: nat)
    requires c in w.connections && w'.connections.Keys == w.connections.Keys
    requires forall d :: d in w.connections && d != c ==> w'.connections[d] == w.connections[d]
    requires Unpublished(w'.connections[c]) == Unpublished(w.connections[c])
    ensures forall d :: IsUnpublished(w, d) == IsUnpublished(w', d)
    ensures HasUnpublished(w) == HasUnpublished(w')
  {
    forall d ensures IsUnpublished(w, d) == IsUnpublished(w', d) {
    }
    if HasUnpublished(w) {
      var d :| IsUnpublished(w, d);
      assert IsUnpublished(w', d);
    }
    if HasUnpublished(w') {
      var d :| IsUnpublished(w', d);
      assert IsUnpublished(w, d);
    }
  }

  /** What a step that neither commits nor publishes leaves, if `published` says whether every commit is published. */
  ghost predicate Quiet(mode: Mode, w: World, w': World, c: nat, published: bool)
    requires c in w.connections
  {
    && w'.shared == w.shared && w'.committed == w.committed
    && w'.connections.Keys == w.connections.Keys
    && Unpublished(w'.connections[c]) == Unpublished(w.connections[c])
    && (published == !HasUnpublished(w') ==> Sound(mode, w', c, w'.connections[c]))
    && forall d :: d != c ==> (w'.writer == Some(d)) == (w.writer == Some(d))
  }

  lemma QuietWrite(mode: Mode, w: World, c: nat, a: Action, published: bool)
    requires c in w.connections && Sound(mode, w, c, w.connections[c])
    requires a.Prepare? || a.TakeWriter? || a.CheckCookie? || a.Mutate?
    requires published == !HasUnpublished(w) && (published ==> w.shared == w.committed)
    requires a.CheckCookie? && Next(mode, w, c, a) != w ==> published
    ensures Quiet(mode, w, Next(mode, w, c, a), c, published)
  {
    hide HasUnpublished;
  }

  lemma QuietEnd(mode: Mode, w: World, c: nat, a: Action, published: bool)
    requires c in w.connections && Sound(mode, w, c, w.connections[c])
    requires a.Rollback? || a.Discard? || a.Release?
    requires published == !HasUnpublished(w)
    ensures Quiet(mode, w, Next(mode, w, c, a), c, published)
  {
    hide HasUnpublished;
  }

  lemma QuietStep(mode: Mode, w: World, c: nat, a: Action)
    requires Safe(mode) && Invariant(mode, w) && c in w.connections && !a.Commit? && !a.Publish?
    ensures Invariant(mode, Next(mode, w, c, a))
  {
    hide HasUnpublished;
    var w' := Next(mode, w, c, a);
    if a.CheckCookie? && w' != w {
      CheckedSeesAll(mode, w, c);
    }
    if a.Rollback? || a.Discard? || a.Release? {
      QuietEnd(mode, w, c, a, !HasUnpublished(w));
    } else {
      QuietWrite(mode, w, c, a, !HasUnpublished(w));
    }
    OthersUntouched(mode, w, c, a);
    hide Next, Unpublished;
    SameUnpublished(w, w', c);
    forall d | d in w'.connections ensures Sound(mode, w', d, w'.connections[d]) {
      assert Sound(mode, w, d, w.connections[d]);
    }
  }

  lemma OthersUntouched(mode: Mode, w: World, c: nat, a: Action)
    ensures forall d :: d in w.connections && d != c ==>
              d in Next(mode, w, c, a).connections && Next(mode, w, c, a).connections[d] == w.connections[d]
  {
  }

  lemma CommitStep(mode: Mode, w: World, c: nat)
    requires Invariant(mode, w) && c in w.connections
    ensures Invariant(mode, Next(mode, w, c, Commit))
  {
    var me := w.connections[c];
    assert Sound(mode, w, c, me);
    var w' := Next(mode, w, c, Commit);
    if me.phase.Writing? && me.staged.None? {
      assert w'.committed == w.committed;
      SameUnpublished(w, w', c);
      forall d | d in w'.connections ensures Sound(mode, w', d, w'.connections[d]) {
        assert Sound(mode, w, d, w.connections[d]);
      }
    } else if me.phase.Writing? {
      assert w.shared == w.committed;
      assert IsUnpublished(w', c);
      forall d | d in w'.connections ensures Sound(mode, w', d, w'.connections[d]) {
        assert Sound(mode, w, d, w.connections[d]);
        assert d != c ==> !IsUnpublished(w, d);
      }
      forall d | IsUnpublished(w', d) ensures d == c {
        assert d != c ==> IsUnpublished(w, d);
      }
    }
  }

  lemma PublishStep(mode: Mode, w: World, c: nat)
    requires Invariant(mode, w) && c in w.connections
    ensures Invariant(mode, Next(mode, w, c, Publish))
  {
    var me := w.connections[c];
    assert Sound(mode, w, c, me);
    var w' := Next(mode, w, c, Publish);
    if w' != w {
      if me.staged.Some? {
        assert IsUnpublished(w, c);
        forall d ensures !IsUnpublished(w', d) {
          assert IsUnpublished(w', d) ==> IsUnpublished(w, d);
        }
        assert !HasUnpublished(w');
      } else {
        SameUnpublished(w, w', c);
      }
      forall d | d in w'.connections ensures Sound(mode, w', d, w'.connections[d]) {
        assert Sound(mode, w, d, w.connections[d]);
      }
    }
  }

  lemma {:induction false} EveryRunKeepsInvariant(mode: Mode, ids: set<nat>, steps: seq<Step>)
    requires Safe(mode)
    ensures Invariant(mode, Run(mode, ids, steps))
  {
    if steps != [] {
      var before, last := steps[..|steps| - 1], steps[|steps| - 1];
      EveryRunKeepsInvariant(mode, ids, before);
      var w := Run(mode, ids, before);
      if last.connection in w.connections {
        match last.action
        case Commit => CommitStep(mode, w, last.connection);
        case Publish => PublishStep(mode, w, last.connection);
        case _ => QuietStep(mode, w, last.connection, last.action);
      }
    }
  }

  /** No committed DDL is missing from the shared schema, except while its own publish is still to come. */
  ghost predicate NothingLost(w: World) {
    w.shared <= w.committed && (HasUnpublished(w) || w.shared == w.committed)
  }

  /** However connections interleave, in WAL mode and in MVCC mode: the shared schema is never anything but a prefix of
      the committed DDL, it is all of it whenever no publish is outstanding, and a publish brings it up to date. */
  lemma NothingCommittedIsLost(mode: Mode, ids: set<nat>, steps: seq<Step>, c: nat)
    requires Safe(mode)
    ensures var w := Run(mode, ids, steps);
            && NothingLost(w)
            && (IsUnpublished(w, c) && Next(mode, w, c, Publish) != w ==>
                  Next(mode, w, c, Publish).shared == w.committed)
            && (mode.publishesFirst && w.writer.None? ==> w.shared == w.committed)
  {
    EveryRunKeepsInvariant(mode, ids, steps);
    var w := Run(mode, ids, steps);
    if IsUnpublished(w, c) {
      assert Sound(mode, w, c, w.connections[c]);
    }
    if mode.publishesFirst && w.writer.None? {
      forall d | d in w.connections ensures !IsUnpublished(w, d) {
        assert Sound(mode, w, d, w.connections[d]);
      }
    }
  }

  /** A writer reads everything committed and its own changes, and nobody else reads uncommitted ones. */
  lemma WriterSeesItsOwn(mode: Mode, ids: set<nat>, steps: seq<Step>, c: nat)
    requires Safe(mode)
    ensures var w := Run(mode, ids, steps);
            c in w.connections ==>
              var me := w.connections[c];
              && (me.phase.Writing? && me.pending != [] ==> Reads(w, me) == w.committed + me.pending)
              && (me.phase.Idle? ==> Reads(w, me) <= w.committed)
  {
    EveryRunKeepsInvariant(mode, ids, steps);
    var w := Run(mode, ids, steps);
    if c in w.connections {
      assert Sound(mode, w, c, w.connections[c]);
    }
  }
}
