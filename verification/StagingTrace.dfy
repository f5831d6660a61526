/** The code that stages and publishes attached schemas, under the commit protocol: it is never made to publish a stale
    copy. */
module StagingTrace {
  import opened Common
  import opened AttachedCommit
  import Staging = AttachedSchema

  /** What a step asks of the code that stages and publishes schemas. */
  function StagingOf(mode: Mode, w: World, c: nat, a: Action): seq<Staging.Event> {
    if Next(mode, w, c, a) == w then []
    else
      match a
      case Mutate(ddl) => [Staging.Mutate(c, ddl)]
      case Publish => [Staging.Publish(c)]
      case Discard => [Staging.Discard(c)]
      case _ => []
  }

  function Trace(mode: Mode, ids: set<nat>, steps: seq<Step>): seq<Staging.Event> {
    if steps == [] then []
    else
      var before, last := steps[..|steps| - 1], steps[|steps| - 1];
      Trace(mode, ids, before) + StagingOf(mode, Run(mode, ids, before), last.connection, last.action)
  }

  predicate StagedIn(w: World, c: nat) {
    c in w.connections && w.connections[c].staged.Some?
  }

  /** One connection's staged copy, as the staging code has it. A copy that will still be published was taken from
      what is shared now. */
  predicate LinkedAt(w: World, s: Staging.World, log: Staging.Log, c: nat) {
    && (c in s.staged <==> StagedIn(w, c)) && (c in log.pending <==> StagedIn(w, c))
    && (StagedIn(w, c) ==> s.staged[c] == w.connections[c].staged.value)
    && (StagedIn(w, c) && (w.connections[c].phase.Writing? || Unpublished(w.connections[c])) ==>
          log.pending[c].base == |log.committed|)
  }

  ghost predicate Linked(w: World, trace: seq<Staging.Event>) {
    && Staging.NeverStale(trace)
    && Staging.Run(trace).shared == w.shared
    && forall c: nat :: LinkedAt(w, Staging.Run(trace), Staging.LogRun(trace), c)
  }

  lemma TraceGrows(trace: seq<Staging.Event>, e: Staging.Event)
    ensures Staging.Run(trace + [e]) == Staging.Step(Staging.Run(trace), e)
    ensures Staging.LogRun(trace + [e]) == Staging.LogStep(Staging.LogRun(trace), e)
    ensures Staging.NeverStale(trace + [e]) == (Staging.NeverStale(trace) && !Staging.Stale(Staging.LogRun(trace), e))
  {
    assert (trace + [e])[..|trace|] == trace;
  }

  lemma MutateLinks(mode: Mode, w: World, c: nat, ddl: string, trace: seq<Staging.Event>)
    requires Linked(w, trace) && Next(mode, w, c, Mutate(ddl)) != w
    ensures Linked(Next(mode, w, c, Mutate(ddl)), trace + [Staging.Mutate(c, ddl)])
  {
    hide Staging.Run, Staging.LogRun, Staging.NeverStale;
    var e := Staging.Mutate(c, ddl);
    TraceGrows(trace, e);
    var w' := Next(mode, w, c, Mutate(ddl));
    assert LinkedAt(w, Staging.Run(trace), Staging.LogRun(trace), c);
    forall d: nat ensures LinkedAt(w', Staging.Run(trace + [e]), Staging.LogRun(trace + [e]), d) {
      assert LinkedAt(w, Staging.Run(trace), Staging.LogRun(trace), d);
    }
  }

  lemma DiscardLinks(mode: Mode, w: World, c: nat, trace: seq<Staging.Event>)
    requires Linked(w, trace) && Next(mode, w, c, Discard) != w
    ensures Linked(Next(mode, w, c, Discard), trace + [Staging.Discard(c)])
  {
    hide Staging.Run, Staging.LogRun, Staging.NeverStale;
    var e := Staging.Discard(c);
    TraceGrows(trace, e);
    forall d: nat
      ensures LinkedAt(Next(mode, w, c, Discard), Staging.Run(trace + [e]), Staging.LogRun(trace + [e]), d)
    {
      assert LinkedAt(w, Staging.Run(trace), Staging.LogRun(trace), d);
    }
  }

  lemma PublishLinks(mode: Mode, w: World, c: nat, trace: seq<Staging.Event>)
    requires Linked(w, trace) && Invariant(mode, w) && Next(mode, w, c, Publish) != w
    ensures Linked(Next(mode, w, c, Publish), trace + [Staging.Publish(c)])
  {
    hide Staging.Run, Staging.LogRun, Staging.NeverStale;
    var e := Staging.Publish(c);
    TraceGrows(trace, e);
    var w' := Next(mode, w, c, Publish);
    assert LinkedAt(w, Staging.Run(trace), Staging.LogRun(trace), c);
    forall d: nat ensures LinkedAt(w', Staging.Run(trace + [e]), Staging.LogRun(trace + [e]), d) {
      assert LinkedAt(w, Staging.Run(trace), Staging.LogRun(trace), d);
      if StagedIn(w, c) && StagedIn(w, d) && d != c {
        AloneWhenUnpublished(mode, w, c, d);
      }
    }
  }

  lemma AloneWhenUnpublished(mode: Mode, w: World, c: nat, d: nat)
    requires Invariant(mode, w) && IsUnpublished(w, c) && StagedIn(w, d) && d != c
    ensures !w.connections[d].phase.Writing? && !Unpublished(w.connections[d])
  {
    assert Sound(mode, w, d, w.connections[d]);
    assert IsUnpublished(w, d) == Unpublished(w.connections[d]);
  }

  lemma OtherLinks(mode: Mode, w: World, c: nat, a: Action, trace: seq<Staging.Event>)
    requires Linked(w, trace) && Invariant(mode, w) && !a.Mutate? && !a.Publish? && !a.Discard?
    ensures Linked(Next(mode, w, c, a), trace)
  {
    hide Staging.Run, Staging.LogRun, Staging.NeverStale, HasUnpublished;
    var w' := Next(mode, w, c, a);
    if c in w.connections {
      assert Sound(mode, w, c, w.connections[c]);
    }
    forall d: nat ensures LinkedAt(w', Staging.Run(trace), Staging.LogRun(trace), d) {
      assert LinkedAt(w, Staging.Run(trace), Staging.LogRun(trace), d);
    }
  }

  lemma {:induction false} EveryRunLinks(mode: Mode, ids: set<nat>, steps: seq<Step>)
    requires Safe(mode)
    ensures Linked(Run(mode, ids, steps), Trace(mode, ids, steps))
  {
    hide Linked, Next, Invariant;
    if steps == [] {
      FreshLinks(mode, ids);
    } else {
      var before, last := steps[..|steps| - 1], steps[|steps| - 1];
      EveryRunLinks(mode, ids, before);
      EveryRunKeepsInvariant(mode, ids, before);
      var w, trace := Run(mode, ids, before), Trace(mode, ids, before);
      assert trace + [] == trace;
      if Next(mode, w, last.connection, last.action) != w {
        match last.action
        case Mutate(ddl) => MutateLinks(mode, w, last.connection, ddl, trace);
        case Publish => PublishLinks(mode, w, last.connection, trace);
        case Discard => DiscardLinks(mode, w, last.connection, trace);
        case _ => OtherLinks(mode, w, last.connection, last.action, trace);
      }
    }
  }

  lemma FreshLinks(mode: Mode, ids: set<nat>)
    ensures Linked(Run(mode, ids, []), [])
  {
  }

  /** Under this protocol the staging code never publishes a stale copy, in either mode: what it keeps as the shared
      schema is the DDL it was given to publish, at every point of every run. */
  lemma StagingIsNeverStale(mode: Mode, ids: set<nat>, steps: seq<Step>)
    requires Safe(mode)
    ensures var trace := Trace(mode, ids, steps);
            && Staging.NeverStale(trace)
            && Staging.Run(trace).shared == Staging.LogRun(trace).committed == Run(mode, ids, steps).shared
  {
    hide Run, Trace;
    EveryRunLinks(mode, ids, steps);
    Staging.CurrentRunAgrees(Trace(mode, ids, steps));
  }

  /** Publishing before releasing moreover keeps it to one staged writer at a time. */
  lemma {:induction false} PublishedFirstIsOneWriter(mode: Mode, ids: set<nat>, steps: seq<Step>)
    requires mode.publishesFirst
    ensures Staging.OneWriter(Trace(mode, ids, steps))
  {
    hide Linked, Invariant, Staging.LogRun, Run;
    if steps != [] {
      var before, last := steps[..|steps| - 1], steps[|steps| - 1];
      PublishedFirstIsOneWriter(mode, ids, before);
      EveryRunKeepsInvariant(mode, ids, before);
      EveryRunLinks(mode, ids, before);
      var w, trace, e := Run(mode, ids, before), Trace(mode, ids, before),
        StagingOf(mode, Run(mode, ids, before), last.connection, last.action);
      if e == [] {
        assert trace + e == trace;
      } else {
        assert (trace + e)[..|trace|] == trace;
        if last.action.Mutate? {
          OnlyWriterStages(mode, w, last.connection, trace);
        }
      }
    }
  }

  lemma OnlyWriterStages(mode: Mode, w: World, c: nat, trace: seq<Staging.Event>)
    requires mode.publishesFirst && Invariant(mode, w) && Linked(w, trace)
    requires c in w.connections && w.connections[c].phase.Writing?
    ensures Staging.LogRun(trace).pending.Keys <= {c}
  {
    forall d | d in Staging.LogRun(trace).pending ensures d == c {
      assert LinkedAt(w, Staging.Run(trace), Staging.LogRun(trace), d);
      assert Sound(mode, w, d, w.connections[d]) && Sound(mode, w, c, w.connections[c]);
    }
  }
}
