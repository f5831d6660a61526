/** The schema gate of a beginning MVCC transaction (`core/connection.rs`, `core/mvcc/database/mod.rs`) against
    checkpoints that republish physical roots without changing the schema version, in any interleaving. */
module SchemaGate {
  import opened Common

  /** A schema as the gate sees it: the identity of the shared object and its version. A publish always yields a
      new identity here; the source reuses the object only when no connection holds it. */
  datatype Stamp = Stamp(identity: nat, version: nat)

  /** The comparison the gate makes: only a same-version schema with another identity is stale. */
  predicate Fresh(held: Stamp, shared: Stamp) {
    held.identity == shared.identity || held.version != shared.version
  }

  /** What a connection is in the middle of. `Active` remembers what was shared when the transaction began. */
  datatype Phase =
    | Idle
    | GenerationRead(generation: nat)
    | Checked(generation: nat)
    | Active(sharedAtBegin: Stamp)
    | Publishing
    | Installed
    | Adopted

  datatype Connection = Connection(held: Stamp, phase: Phase)

  /** `publisher` is the checkpoint holding the clock. A transaction takes its begin timestamp under that same
      clock, so begin is one step and happens outside any publish window. */
  datatype World = World(generation: nat, shared: Stamp, nextIdentity: nat, publisher: Option<nat>,
                         connections: map<nat, Connection>)

  /** `Refresh` is what a re-preparation does and `AdoptCopy` what every step of a statement does first: it takes a
      schema it finds stale as a private copy, because it resolves root pages in it. */
  datatype Action =
    | Refresh
    | AdoptCopy
    | ReadGeneration
    | Compare
    | Begin
    | End
    | CommitDdl(extra: nat)
    | TakeClock
    | Install
    | Adopt
    | BumpGeneration

  function Put(w: World, c: nat, connection: Connection): World {
    w.(connections := w.connections[c := connection])
  }

  /** One atomic step of one connection; a step that is not enabled changes nothing. */
  function Next(w: World, c: nat, a: Action): World {
    if c !in w.connections then w
    else
      var me := w.connections[c];
      match a
      case Refresh => if me.phase.Idle? then Put(w, c, me.(held := w.shared)) else w
      case AdoptCopy =>
        if me.phase.Idle? && me.held != w.shared then
          Put(w, c, me.(held := Stamp(w.nextIdentity, w.shared.version))).(nextIdentity := w.nextIdentity + 1)
        else w
      case ReadGeneration => if me.phase.Idle? then Put(w, c, me.(phase := GenerationRead(w.generation))) else w
      case Compare =>
        if !me.phase.GenerationRead? then w
        else if Fresh(me.held, w.shared) then Put(w, c, me.(phase := Checked(me.phase.generation)))
        else Put(w, c, me.(phase := Idle))
      case Begin =>
        if !me.phase.Checked? || w.publisher.Some? then w
        else if me.phase.generation != w.generation then Put(w, c, me.(phase := Idle))
        else Put(w, c, me.(phase := Active(w.shared)))
      case End => if me.phase.Active? then Put(w, c, me.(phase := Idle)) else w
      case CommitDdl(extra) =>
        if !me.phase.Active? then w
        else
          var committed := Stamp(w.nextIdentity, w.shared.version + 1 + extra);
          Put(w, c, Connection(committed, Idle)).(shared := committed, nextIdentity := w.nextIdentity + 1)
      case TakeClock =>
        if me.phase.Idle? && w.publisher.None? then Put(w, c, me.(phase := Publishing)).(publisher := Some(c)) else w
      case Install =>
        if me.phase.Publishing? then
          Put(w, c, me.(phase := Installed))
          .(shared := w.shared.(identity := w.nextIdentity), nextIdentity := w.nextIdentity + 1)
        else w
      case Adopt => if me.phase.Installed? then Put(w, c, Connection(w.shared, Adopted)) else w
      case BumpGeneration =>
        if me.phase.Adopted? then
          Put(w, c, me.(phase := Idle)).(generation := w.generation + 1, publisher := None)
        else w
  }

  function Run(w: World, steps: seq<(nat, Action)>): World {
    if steps == [] then w
    else
      var last := steps[|steps| - 1];
      Next(Run(w, steps[..|steps| - 1]), last.0, last.1)
  }

  function Opened(ids: set<nat>): World {
    World(0, Stamp(0, 0), 1, None, map c | c in ids :: Connection(Stamp(0, 0), Idle))
  }

  predicate InWindow(p: Phase) {
    p.Publishing? || p.Installed? || p.Adopted?
  }

  /** A publish has installed new roots and not yet bumped the generation. */
  predicate Unannounced(w: World) {
    && w.publisher.Some? && w.publisher.value in w.connections
    && (w.connections[w.publisher.value].phase.Installed? || w.connections[w.publisher.value].phase.Adopted?)
  }

  /** What holds of one connection in every reachable state. */
  predicate Sound(w: World, c: nat, me: Connection) {
    && me.held.version <= w.shared.version
    && (InWindow(me.phase) ==> w.publisher == Some(c))
    && (me.phase.GenerationRead? || me.phase.Checked? ==> me.phase.generation <= w.generation)
    && (me.phase.Checked? && me.phase.generation == w.generation ==> Fresh(me.held, w.shared) || Unannounced(w))
    && (me.phase.Active? ==> Fresh(me.held, me.phase.sharedAtBegin))
  }

  predicate Invariant(w: World) {
    && (w.publisher.Some? ==> w.publisher.value in w.connections && InWindow(w.connections[w.publisher.value].phase))
    && forall c :: c in w.connections ==> Sound(w, c, w.connections[c])
  }

  lemma OwnStepIsSound(w: World, c: nat, a: Action)
    requires Invariant(w) && c in w.connections
    ensures c in Next(w, c, a).connections && Sound(Next(w, c, a), c, Next(w, c, a).connections[c])
  {
  }

  lemma OtherStepIsSound(w: World, c: nat, a: Action, d: nat)
    requires Invariant(w) && c in w.connections && d in w.connections && d != c
    ensures d in Next(w, c, a).connections && Sound(Next(w, c, a), d, w.connections[d])
  {
  }

  lemma NextKeepsInvariant(w: World, c: nat, a: Action)
    requires Invariant(w)
    ensures Invariant(Next(w, c, a))
  {
    hide Sound, Fresh, Unannounced;
    var w' := Next(w, c, a);
    if c in w.connections {
      OwnStepIsSound(w, c, a);
      forall d | d in w'.connections ensures Sound(w', d, w'.connections[d]) {
        if d != c {
          OtherStepIsSound(w, c, a, d);
        }
      }
    }
  }

  lemma {:induction false} EveryRunKeepsInvariant(ids: set<nat>, steps: seq<(nat, Action)>)
    ensures Invariant(Run(Opened(ids), steps))
  {
    if steps != [] {
      var n := |steps| - 1;
      EveryRunKeepsInvariant(ids, steps[..n]);
      NextKeepsInvariant(Run(Opened(ids), steps[..n]), steps[n].0, steps[n].1);
    }
  }

  /** However connections, checkpoints and DDL interleave, a transaction that gets past the gate was prepared
      against the schema shared at its begin timestamp, or against one of another version, which the statement's
      version check catches. Until it ends it keeps that schema. */
  lemma BegunTransactionsAreFresh(ids: set<nat>, steps: seq<(nat, Action)>, c: nat)
    requires c in Run(Opened(ids), steps).connections
    requires Run(Opened(ids), steps).connections[c].phase.Active?
    ensures var me := Run(Opened(ids), steps).connections[c]; Fresh(me.held, me.phase.sharedAtBegin)
  {
    EveryRunKeepsInvariant(ids, steps);
  }

  /** The re-check under the clock is what makes the begin safe: it is let through exactly when no publish has
      been announced since the generation was read. */
  lemma GateOpensExactlyWhenUnannounced(ids: set<nat>, steps: seq<(nat, Action)>, c: nat)
    requires var w := Run(Opened(ids), steps); c in w.connections && w.connections[c].phase.Checked? && w.publisher.None?
    ensures var w := Run(Opened(ids), steps);
            var me := w.connections[c];
            && Next(w, c, Begin).connections[c].phase.Active? == (me.phase.generation == w.generation)
            && (me.phase.generation == w.generation ==> Fresh(me.held, w.shared))
            && me.phase.generation <= w.generation
  {
    EveryRunKeepsInvariant(ids, steps);
    var w := Run(Opened(ids), steps);
    assert Sound(w, c, w.connections[c]);
  }

  /** A connection that has been re-prepared and begins undisturbed, with no publish under way, gets its transaction on
      the shared schema. */
  lemma UndisturbedBeginSucceeds(w: World, c: nat)
    requires c in w.connections && w.connections[c].phase.Idle? && w.publisher.None?
    ensures var begun := Next(Next(Next(Next(w, c, Refresh), c, ReadGeneration), c, Compare), c, Begin);
            begun == Put(w, c, Connection(w.shared, Active(w.shared)))
  {
  }

  /** Identities are handed out once, so a private copy is never the shared object. */
  predicate Fresher(w: World) {
    w.shared.identity < w.nextIdentity && forall c :: c in w.connections ==> w.connections[c].held.identity < w.nextIdentity
  }

  lemma {:induction false} IdentitiesAreFresh(ids: set<nat>, steps: seq<(nat, Action)>)
    ensures Fresher(Run(Opened(ids), steps))
  {
    if steps != [] {
      IdentitiesAreFresh(ids, steps[..|steps| - 1]);
    }
  }

  /** A connection that adopted a schema on its own holds a copy, and the gate refuses it although nothing is published
      meanwhile; once re-prepared it gets through. In every reachable state where its schema was stale. */
  lemma AdoptedCopyIsRefusedOnce(ids: set<nat>, steps: seq<(nat, Action)>, c: nat)
    requires var w := Run(Opened(ids), steps);
             && c in w.connections && w.connections[c].phase.Idle? && w.publisher.None?
             && w.connections[c].held != w.shared
    ensures var w := Run(Opened(ids), steps);
            var refused := Next(Next(Next(w, c, AdoptCopy), c, ReadGeneration), c, Compare);
            var begun := Next(Next(Next(Next(refused, c, Refresh), c, ReadGeneration), c, Compare), c, Begin);
            && refused.connections[c].phase.Idle?
            && refused.connections[c].held.version == w.shared.version
            && begun.connections[c] == Connection(w.shared, Active(w.shared))
  {
    hide Run;
    IdentitiesAreFresh(ids, steps);
    var w := Run(Opened(ids), steps);
    var refused := Next(Next(Next(w, c, AdoptCopy), c, ReadGeneration), c, Compare);
    UndisturbedBeginSucceeds(refused, c);
  }
}
