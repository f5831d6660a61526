/** Explicit checkpoints against running statements (`core/connection.rs`, `core/statement.rs`). The counters are
    updated one atomic operation at a time, and only starting a statement takes the activity lock, so a checkpoint
    can read them half-way through another statement's start or release. */
module Checkpoint {
  import opened Common

  /** Where a root statement is between its counter updates. Only a blob handle's statement has a second counter,
      raised after and lowered before the first. */
  datatype Phase = Idle | RootOnly | Counted | BlobReleased

  datatype Statement = Statement(blob: bool, phase: Phase)

  /** `begin_explicit_checkpoint` inside the activity lock. The caller is the statement it runs in, if any. */
  datatype Section = Free | Entered(caller: Option<nat>) | RootsRead(caller: Option<nat>, roots: int)

  /** A connection: its statements, the two counters, the checkpoint flag and the live guards with their callers. */
  datatype State = State(statements: map<nat, Statement>, roots: int, blobs: int,
                         checkpointActive: bool, guards: seq<Option<nat>>, section: Section)

  datatype Action =
    | StartRoot(id: nat)
    | CountBlob(id: nat)
    | ReleaseBlob(id: nat)
    | ReleaseRoot(id: nat)
    | Enter(caller: Option<nat>)
    | LoadRoots
    | LoadBlobsAndDecide
    | DropGuard

  function Expected(caller: Option<nat>): int {
    if caller.Some? then 1 else 0
  }

  predicate Runs(s: State, id: nat) {
    id in s.statements && !s.statements[id].blob && s.statements[id].phase.Counted?
  }

  function Move(s: State, id: nat, phase: Phase): State
    requires id in s.statements
  {
    s.(statements := s.statements[id := s.statements[id].(phase := phase)])
  }

  /** One atomic step; a step that is not enabled changes nothing. */
  function Next(s: State, a: Action): State {
    match a
    case StartRoot(id) =>
      if id in s.statements && s.statements[id].phase.Idle? && s.section.Free? && !s.checkpointActive
      then Move(s, id, if s.statements[id].blob then RootOnly else Counted).(roots := s.roots + 1)
      else s
    case CountBlob(id) =>
      if id in s.statements && s.statements[id].phase.RootOnly?
      then Move(s, id, Counted).(blobs := s.blobs + 1)
      else s
    case ReleaseBlob(id) =>
      if id in s.statements && s.statements[id].blob && s.statements[id].phase.Counted?
      then Move(s, id, BlobReleased).(blobs := s.blobs - 1)
      else s
    case ReleaseRoot(id) =>
      if (Runs(s, id) && (s.section.Free? || s.section.caller != Some(id)))
         || (id in s.statements && s.statements[id].phase.BlobReleased?)
      then Move(s, id, Idle).(roots := s.roots - 1)
      else s
    case Enter(caller) =>
      if s.section.Free? && (caller.Some? ==> Runs(s, caller.value)) then s.(section := Entered(caller)) else s
    case LoadRoots =>
      if s.section.Entered? then s.(section := RootsRead(s.section.caller, s.roots)) else s
    case LoadBlobsAndDecide =>
      if !s.section.RootsRead? then s
      else if s.checkpointActive || s.section.roots - s.blobs != Expected(s.section.caller) then s.(section := Free)
      else s.(section := Free, checkpointActive := true, guards := s.guards + [s.section.caller])
    case DropGuard =>
      if s.section.Free? && s.guards != [] then s.(checkpointActive := false, guards := s.guards[1..]) else s
  }

  function Run(s: State, actions: seq<Action>): State {
    if actions == [] then s else Next(Run(s, actions[..|actions| - 1]), actions[|actions| - 1])
  }

  /** A connection whose statements, blob handles and others, have not started. */
  function Prepared(kinds: map<nat, bool>): State {
    State(map id | id in kinds :: Statement(kinds[id], Idle), 0, 0, false, [], Free)
  }

  // ----- What is really running

  function Started(s: State): set<nat> {
    set id | id in s.statements && !s.statements[id].phase.Idle?
  }

  function BlobCounted(s: State): set<nat> {
    set id | id in s.statements && s.statements[id].blob && s.statements[id].phase.Counted?
  }

  /** The statements a checkpoint must not run beside. */
  function Running(s: State): set<nat> {
    set id | id in s.statements && Runs(s, id)
  }

  predicate Invariant(s: State) {
    && (forall id :: id in s.statements ==> s.statements[id].blob || s.statements[id].phase in {Idle, Counted})
    && s.roots == |Started(s)| && s.blobs == |BlobCounted(s)|
    && |s.guards| == (if s.checkpointActive then 1 else 0)
    && (s.checkpointActive ==> forall id :: id in Running(s) ==> s.guards[0] == Some(id))
    && (!s.section.Free? && s.section.caller.Some? ==> Runs(s, s.section.caller.value))
    && (s.section.RootsRead? ==> s.section.roots >= s.roots)
  }

  lemma MovedIn(s: State, id: nat, phase: Phase)
    requires id in s.statements && s.statements[id].phase.Idle? && !phase.Idle?
    ensures |Started(Move(s, id, phase))| == |Started(s)| + 1
  {
    assert Started(Move(s, id, phase)) == Started(s) + {id};
  }

  lemma MovedOut(s: State, id: nat)
    requires id in s.statements && !s.statements[id].phase.Idle?
    ensures |Started(Move(s, id, Idle))| == |Started(s)| - 1
  {
    assert Started(Move(s, id, Idle)) == Started(s) - {id};
  }

  lemma MovedBetween(s: State, id: nat, phase: Phase)
    requires id in s.statements && !s.statements[id].phase.Idle? && !phase.Idle?
    ensures |Started(Move(s, id, phase))| == |Started(s)|
  {
    assert Started(Move(s, id, phase)) == Started(s);
  }

  lemma BlobMoves(s: State, id: nat, phase: Phase)
    requires id in s.statements && s.statements[id].blob
    ensures |BlobCounted(Move(s, id, phase))| ==
            |BlobCounted(s)| - (if s.statements[id].phase.Counted? then 1 else 0) + (if phase.Counted? then 1 else 0)
  {
    var rest := BlobCounted(s) - {id};
    assert BlobCounted(s) == if s.statements[id].phase.Counted? then rest + {id} else rest;
    assert BlobCounted(Move(s, id, phase)) == if phase.Counted? then rest + {id} else rest;
  }

  lemma OtherMoves(s: State, id: nat, phase: Phase)
    requires id in s.statements && !s.statements[id].blob
    ensures BlobCounted(Move(s, id, phase)) == BlobCounted(s)
  {
  }

  lemma {:induction false} CardinalityMonotone(a: set<nat>, b: set<nat>)
    requires a <= b
    ensures |a| <= |b|
  {
    if a != {} {
      var x :| x in a;
      CardinalityMonotone(a - {x}, b - {x});
    }
  }

  /** What is running is never more than the difference of the counters, whatever is half-way. */
  lemma RunningIsCounted(s: State)
    requires Invariant(s)
    ensures |Running(s)| <= s.roots - s.blobs
  {
    CardinalityMonotone(Running(s) + BlobCounted(s), Started(s));
    assert Running(s) !! BlobCounted(s);
    assert |Running(s) + BlobCounted(s)| == |Running(s)| + |BlobCounted(s)|;
  }

  lemma OnlyOne(a: set<nat>, x: nat)
    requires x in a && |a| <= 1
    ensures a == {x}
  {
    CardinalityMonotone({x}, a);
    assert |a - {x}| == 0;
  }

  lemma StatementStep(s: State, a: Action)
    requires Invariant(s) && (a.StartRoot? || a.CountBlob? || a.ReleaseBlob? || a.ReleaseRoot?)
    ensures Invariant(Next(s, a))
  {
    hide Started, BlobCounted;
    var s' := Next(s, a);
    if s' != s {
      var id, phase := a.id, s'.statements[a.id].phase;
      if s.statements[id].phase.Idle? {
        MovedIn(s, id, phase);
      } else if phase.Idle? {
        MovedOut(s, id);
      } else {
        MovedBetween(s, id, phase);
      }
      if s.statements[id].blob {
        BlobMoves(s, id, phase);
      } else {
        OtherMoves(s, id, phase);
      }
      SameCounts(s', Move(s, id, phase));
      assert s.checkpointActive ==> Running(s') <= Running(s);
    }
  }

  lemma SameCounts(s: State, t: State)
    requires s.statements == t.statements
    ensures Started(s) == Started(t) && BlobCounted(s) == BlobCounted(t) && Running(s) == Running(t)
  {
  }

  lemma CheckpointStep(s: State, a: Action)
    requires Invariant(s) && (a.Enter? || a.LoadRoots? || a.LoadBlobsAndDecide? || a.DropGuard?)
    ensures Invariant(Next(s, a))
  {
    hide Started, BlobCounted, Running;
    var s' := Next(s, a);
    SameCounts(s, s');
    if a.LoadBlobsAndDecide? && s.section.RootsRead? {
      var caller := s.section.caller;
      RunningIsCounted(s);
      if caller.Some? {
        RunsIsRunning(s, caller.value);
      }
      if s'.checkpointActive && !s.checkpointActive {
        if caller.Some? {
          OnlyOne(Running(s), caller.value);
        }
      }
    }
  }

  lemma RunsIsRunning(s: State, id: nat)
    requires Runs(s, id)
    ensures id in Running(s)
  {
  }

  lemma {:induction false} EveryRunKeepsInvariant(kinds: map<nat, bool>, actions: seq<Action>)
    ensures Invariant(Run(Prepared(kinds), actions))
  {
    if actions == [] {
      assert Started(Prepared(kinds)) == {} && BlobCounted(Prepared(kinds)) == {};
    } else {
      var n := |actions| - 1;
      EveryRunKeepsInvariant(kinds, actions[..n]);
      var s, a := Run(Prepared(kinds), actions[..n]), actions[n];
      if a.StartRoot? || a.CountBlob? || a.ReleaseBlob? || a.ReleaseRoot? {
        StatementStep(s, a);
      } else {
        CheckpointStep(s, a);
      }
    }
  }

  /** In every interleaving, a live checkpoint guard is the only one, the flag its drop asserts is set, no statement
      can start, and none is running beside it but the one it was taken from. Parked blob handles may stay. */
  lemma CheckpointRunsAlone(kinds: map<nat, bool>, actions: seq<Action>, id: nat)
    ensures var s := Run(Prepared(kinds), actions);
            s.guards != [] ==>
              && |s.guards| == 1 && s.checkpointActive
              && Next(s, StartRoot(id)) == s
              && (forall i :: i in Running(s) ==> s.guards == [Some(i)])
  {
    EveryRunKeepsInvariant(kinds, actions);
  }

  /** With no statement between its two counter updates, a checkpoint is let in exactly when none is active and
      the statements running are just the one it was called from. */
  lemma CheckpointGrantedExactlyWhenAlone(s: State, caller: Option<nat>)
    requires Invariant(s) && s.section.Free? && (caller.Some? ==> Runs(s, caller.value))
    requires forall id :: id in s.statements ==> !s.statements[id].phase.RootOnly? && !s.statements[id].phase.BlobReleased?
    ensures var t := Next(Next(Next(s, Enter(caller)), LoadRoots), LoadBlobsAndDecide);
            && (|t.guards| > |s.guards|) ==
               (!s.checkpointActive && Running(s) == (if caller.Some? then {caller.value} else {}))
            && t.(guards := s.guards, checkpointActive := s.checkpointActive) == s
  {
    assert Running(s) !! BlobCounted(s) && Running(s) + BlobCounted(s) == Started(s);
    assert |Running(s) + BlobCounted(s)| == |Running(s)| + |BlobCounted(s)|;
    if caller.Some? && |Running(s)| == 1 {
      OnlyOne(Running(s), caller.value);
    }
  }

  lemma MovedBack(s: State, id: nat, phase: Phase)
    requires id in s.statements
    ensures Move(Move(s, id, phase), id, s.statements[id].phase) == s
  {
    assert s.statements[id := s.statements[id]] == s.statements;
  }

  /** An ordinary statement that may start runs and is counted, and its release undoes that. */
  lemma StatementComesAndGoes(s: State, id: nat)
    requires id in s.statements && s.statements[id] == Statement(false, Idle) && s.section.Free? && !s.checkpointActive
    ensures var started := Next(s, StartRoot(id));
            && started == Move(s, id, Counted).(roots := s.roots + 1)
            && Running(started) == Running(s) + {id}
            && Next(started, ReleaseRoot(id)) == s
  {
    MovedBack(s, id, Counted);
  }

  /** A blob handle's statement is counted as a root and then as a blob, and released in the other order. */
  lemma BlobComesAndGoes(s: State, id: nat)
    requires id in s.statements && s.statements[id] == Statement(true, Idle) && s.section.Free? && !s.checkpointActive
    ensures var counted := Next(Next(s, StartRoot(id)), CountBlob(id));
            && counted == Move(s, id, Counted).(roots := s.roots + 1, blobs := s.blobs + 1)
            && BlobCounted(counted) == BlobCounted(s) + {id}
            && Next(Next(counted, ReleaseBlob(id)), ReleaseRoot(id)) == s
  {
    hide Running, Started;
    assert Move(Move(s, id, RootOnly), id, Counted) == Move(s, id, Counted);
    assert Move(Move(s, id, Counted), id, BlobReleased) == Move(s, id, BlobReleased);
    MovedBack(s, id, BlobReleased);
  }

  /** In every reachable state, a statement can start exactly when it has not started, nobody is deciding on a checkpoint
      and no checkpoint guard is alive. */
  lemma StartsExactlyWhenFree(kinds: map<nat, bool>, actions: seq<Action>, id: nat)
    ensures var s := Run(Prepared(kinds), actions);
            Next(s, StartRoot(id)) != s <==>
            id in s.statements && s.statements[id].phase.Idle? && s.section.Free? && s.guards == []
  {
    hide Run;
    EveryRunKeepsInvariant(kinds, actions);
    var s := Run(Prepared(kinds), actions);
    assert Next(s, StartRoot(id)) != s ==> Next(s, StartRoot(id)).roots == s.roots + 1;
  }
}
