/** What the order of publishing and releasing and the cookie check are each for: with one of them an attached schema
    loses nothing, with neither it does. With either order a connection nobody disturbs gets its work done. */
module PublishOrder {
  import opened Common
  import opened AttachedCommit

  // ----- A connection carrying on alone

  const FRESH := Connection(Idle, None, None, [])

  /** One connection carrying on alone. */
  function Do(mode: Mode, w: World, c: nat, actions: seq<Action>): World
    decreases |actions|
  {
    if actions == [] then w else Do(mode, Next(mode, w, c, actions[0]), c, actions[1..])
  }

  function Steps(c: nat, actions: seq<Action>): seq<Step> {
    if actions == [] then [] else [Step(c, actions[0])] + Steps(c, actions[1..])
  }

  lemma {:induction false} RunThenDo(mode: Mode, ids: set<nat>, steps: seq<Step>, c: nat, actions: seq<Action>)
    ensures Run(mode, ids, steps + Steps(c, actions)) == Do(mode, Run(mode, ids, steps), c, actions)
    decreases |actions|
  {
    if actions == [] {
      assert steps + Steps(c, actions) == steps;
    } else {
      var more := steps + [Step(c, actions[0])];
      assert more[..|steps|] == steps;
      RunThenDo(mode, ids, more, c, actions[1..]);
      assert more + Steps(c, actions[1..]) == steps + Steps(c, actions);
    }
  }

  lemma DoOne(mode: Mode, w: World, c: nat, a: Action, rest: seq<Action>)
    ensures Do(mode, w, c, [a] + rest) == Do(mode, Next(mode, w, c, a), c, rest)
  {
    assert ([a] + rest)[1..] == rest;
  }

  lemma DoNothing(mode: Mode, w: World, c: nat)
    ensures Do(mode, w, c, []) == w
  {
  }

  lemma DoTwo(mode: Mode, w: World, c: nat, a: Action, b: Action)
    ensures Do(mode, w, c, [a, b]) == Next(mode, Next(mode, w, c, a), c, b)
  {
    hide Next;
    assert [a, b] == [a] + [b] && [b] == [b] + [];
    DoOne(mode, w, c, a, [b]);
    DoOne(mode, Next(mode, w, c, a), c, b, []);
    DoNothing(mode, Next(mode, Next(mode, w, c, a), c, b), c);
  }

  lemma {:induction false} DoBoth(mode: Mode, w: World, c: nat, first: seq<Action>, second: seq<Action>)
    ensures Do(mode, w, c, first + second) == Do(mode, Do(mode, w, c, first), c, second)
    decreases |first|
  {
    hide Next;
    if first == [] {
      assert first + second == second;
    } else {
      assert (first + second)[1..] == first[1..] + second;
      DoBoth(mode, Next(mode, w, c, first[0]), c, first[1..], second);
    }
  }

  // ----- Neither

  const UNCHECKED := Mode(false, false)

  /** Stage one change on whatever is shared, commit it and give up the lock. */
  function Write(ddl: string): seq<Action> {
    [TakeWriter, CheckCookie, Mutate(ddl), Commit, Release]
  }

  lemma WriteSteps(w: World, c: nat, ddl: string) returns (w1: World, w2: World, w3: World, w4: World)
    requires c in w.connections && w.connections[c] == FRESH && w.writer.None?
    ensures Next(UNCHECKED, w, c, TakeWriter) == w1 && Next(UNCHECKED, w1, c, CheckCookie) == w2
    ensures Next(UNCHECKED, w2, c, Mutate(ddl)) == w3 && Next(UNCHECKED, w3, c, Commit) == w4
    ensures Next(UNCHECKED, w4, c, Release) ==
            Put(w, c, Connection(CommittedFree, None, Some(w.shared + [ddl]), [])).(committed := w.committed + [ddl])
  {
    var none: seq<string> := [];
    assert none + [ddl] == [ddl];
    w1 := Put(w, c, Connection(Writing(false), None, None, [])).(writer := Some(c));
    w2 := Put(w, c, Connection(Writing(true), None, None, [])).(writer := Some(c));
    w3 := Put(w, c, Connection(Writing(false), None, Some(w.shared + [ddl]), [ddl])).(writer := Some(c));
    w4 := Put(w, c, Connection(Committed, None, Some(w.shared + [ddl]), []))
          .(writer := Some(c), committed := w.committed + [ddl]);
  }

  lemma WriteEffect(w: World, c: nat, ddl: string)
    requires c in w.connections && w.connections[c] == FRESH && w.writer.None?
    ensures Do(UNCHECKED, w, c, Write(ddl)) ==
            Put(w, c, Connection(CommittedFree, None, Some(w.shared + [ddl]), [])).(committed := w.committed + [ddl])
  {
    hide Do, Next, Put;
    var w1, w2, w3, w4 := WriteSteps(w, c, ddl);
    DoOne(UNCHECKED, w, c, TakeWriter, [CheckCookie, Mutate(ddl), Commit, Release]);
    DoOne(UNCHECKED, w1, c, CheckCookie, [Mutate(ddl), Commit, Release]);
    DoOne(UNCHECKED, w2, c, Mutate(ddl), [Commit, Release]);
    DoTwo(UNCHECKED, w3, c, Commit, Release);
    assert Write(ddl) == [TakeWriter] + [CheckCookie, Mutate(ddl), Commit, Release];
    assert [CheckCookie, Mutate(ddl), Commit, Release] == [CheckCookie] + [Mutate(ddl), Commit, Release];
    assert [Mutate(ddl), Commit, Release] == [Mutate(ddl)] + [Commit, Release];
  }

  lemma PublishEffect(w: World, c: nat)
    requires c in w.connections && w.connections[c].phase.CommittedFree?
    ensures Do(UNCHECKED, w, c, [Publish]) == Put(w, c, w.connections[c].(phase := Idle, prepared := None, staged := None))
                                   .(shared := Reads(w, w.connections[c]))
  {
    assert [Publish] == [Publish] + [];
    DoOne(UNCHECKED, w, c, Publish, []);
    DoNothing(UNCHECKED, Next(UNCHECKED, w, c, Publish), c);
  }

  /** Releasing before publishing is not safe by itself: without the cookie check a second connection stages a copy
      that lacks the first one's commit and publishes it over the first one's. */
  lemma UncheckedReleaseLoses(c: nat, d: nat, first: string, second: string)
    requires c != d
    ensures exists steps ::
              && Run(UNCHECKED, {c, d}, steps).committed == [first, second]
              && Run(UNCHECKED, {c, d}, steps).shared == [second]
              && !HasUnpublished(Run(UNCHECKED, {c, d}, steps))
  {
    hide Do, Steps, Next, Write;
    var ids, none := {c, d}, [];
    var s1 := none + Steps(c, Write(first));
    var s2 := s1 + Steps(d, Write(second));
    var s3 := s2 + Steps(c, [Publish]);
    var s4 := s3 + Steps(d, [Publish]);
    RunThenDo(UNCHECKED, ids, none, c, Write(first));
    RunThenDo(UNCHECKED, ids, s1, d, Write(second));
    RunThenDo(UNCHECKED, ids, s2, c, [Publish]);
    RunThenDo(UNCHECKED, ids, s3, d, [Publish]);
    WriteEffect(Run(UNCHECKED, ids, none), c, first);
    WriteEffect(Run(UNCHECKED, ids, s1), d, second);
    PublishEffect(Run(UNCHECKED, ids, s2), c);
    PublishEffect(Run(UNCHECKED, ids, s3), d);
    var w := Run(UNCHECKED, ids, s4);
    assert w.shared == [second] && w.committed == [first, second];
    assert !HasUnpublished(w);
  }

  /** The protocol loses nothing in any interleaving if and only if it publishes before it releases the lock or checks
      the cookie before it stages. */
  lemma SafeExactlyWhenPublishedFirstOrChecked(mode: Mode)
    ensures Safe(mode) <==> forall ids, steps :: NothingLost(Run(mode, ids, steps))
  {
    hide Run, Next, HasUnpublished;
    if Safe(mode) {
      forall ids, steps ensures NothingLost(Run(mode, ids, steps)) {
        NothingCommittedIsLost(mode, ids, steps, 0);
      }
    } else {
      UncheckedReleaseLoses(0, 1, "a", "b");
      var steps :| && Run(UNCHECKED, {0, 1}, steps).committed == ["a", "b"]
                   && Run(UNCHECKED, {0, 1}, steps).shared == ["b"]
                   && !HasUnpublished(Run(UNCHECKED, {0, 1}, steps));
      assert mode == UNCHECKED;
      assert !NothingLost(Run(mode, {0, 1}, steps));
    }
  }

  // ----- Either

  lemma Opens(mode: Mode, w: World, c: nat)
    requires c in w.connections && w.connections[c] == FRESH.(prepared := w.connections[c].prepared) && w.writer.None?
    ensures Do(mode, w, c, [Prepare, TakeWriter]) ==
            Put(w, c, Connection(Writing(false), Some(|w.shared|), None, [])).(writer := Some(c))
  {
    DoTwo(mode, w, c, Prepare, TakeWriter);
  }

  lemma Stages(mode: Mode, w: World, c: nat, ddl: string)
    requires c in w.connections && w.connections[c] == Connection(Writing(false), Some(|w.shared|), None, [])
    requires |w.shared| == |w.committed|
    ensures Do(mode, w, c, [CheckCookie, Mutate(ddl)]) ==
            Put(w, c, Connection(Writing(false), Some(|w.shared|), Some(w.shared + [ddl]), [ddl]))
  {
    var none: seq<string> := [];
    assert none + [ddl] == [ddl];
    DoTwo(mode, w, c, CheckCookie, Mutate(ddl));
  }

  function Ending(mode: Mode, deal: Action): seq<Action> {
    if mode.publishesFirst then [deal, Release] else [Release, deal]
  }

  lemma Commits(mode: Mode, w: World, c: nat)
    requires c in w.connections && w.connections[c].phase.Committed? && w.connections[c].pending == []
    ensures Do(mode, w, c, Ending(mode, Publish)) ==
            Put(w, c, FRESH).(shared := Reads(w, w.connections[c]), writer := None)
  {
    if mode.publishesFirst {
      DoTwo(mode, w, c, Publish, Release);
    } else {
      DoTwo(mode, w, c, Release, Publish);
    }
  }

  lemma RollsBack(mode: Mode, w: World, c: nat)
    requires c in w.connections && w.connections[c].phase.RolledBack? && w.connections[c].pending == []
    ensures Do(mode, w, c, Ending(mode, Discard)) == Put(w, c, FRESH).(writer := None)
  {
    if mode.publishesFirst {
      DoTwo(mode, w, c, Discard, Release);
    } else {
      DoTwo(mode, w, c, Release, Discard);
    }
  }

  function Statement(mode: Mode, ddl: string, keep: bool): seq<Action> {
    [Prepare, TakeWriter] + ([CheckCookie, Mutate(ddl)] +
    ([if keep then Commit else Rollback] + Ending(mode, if keep then Publish else Discard)))
  }

  /** A connection nobody disturbs, in either mode: its statement commits and is published, or is rolled back without a
      trace, and the lock is free again. */
  lemma UndisturbedStatement(mode: Mode, w: World, c: nat, ddl: string, keep: bool)
    requires c in w.connections && w.connections[c] == FRESH.(prepared := w.connections[c].prepared)
    requires w.writer.None? && w.shared == w.committed
    ensures Do(mode, w, c, Statement(mode, ddl, keep)) ==
            if keep then Put(w, c, FRESH).(committed := w.committed + [ddl], shared := w.committed + [ddl])
            else Put(w, c, FRESH)
  {
    hide Do, Ending;
    var end := [if keep then Commit else Rollback] + Ending(mode, if keep then Publish else Discard);
    var middle := [CheckCookie, Mutate(ddl)];
    var w1 := Put(w, c, Connection(Writing(false), Some(|w.shared|), None, [])).(writer := Some(c));
    var w2 := Put(w, c, Connection(Writing(false), Some(|w.shared|), Some(w.shared + [ddl]), [ddl])).(writer := Some(c));
    DoBoth(mode, w, c, [Prepare, TakeWriter], middle + end);
    Opens(mode, w, c);
    DoBoth(mode, w1, c, middle, end);
    Stages(mode, w1, c, ddl);
    assert Put(w1, c, w2.connections[c]) == w2;
    EndsStatement(mode, w, w2, c, ddl, keep);
  }

  lemma EndsStatement(mode: Mode, w: World, w2: World, c: nat, ddl: string, keep: bool)
    requires c in w.connections && w.writer.None? && w.shared == w.committed
    requires w2 == Put(w, c, Connection(Writing(false), Some(|w.shared|), Some(w.shared + [ddl]), [ddl])).(writer := Some(c))
    ensures Do(mode, w2, c, [if keep then Commit else Rollback] + Ending(mode, if keep then Publish else Discard)) ==
            if keep then Put(w, c, FRESH).(committed := w.committed + [ddl], shared := w.committed + [ddl])
            else Put(w, c, FRESH)
  {
    hide Do, Ending;
    var a := if keep then Commit else Rollback;
    DoOne(mode, w2, c, a, Ending(mode, if keep then Publish else Discard));
    var w3 := Next(mode, w2, c, a);
    if keep {
      Commits(mode, w3, c);
    } else {
      RollsBack(mode, w3, c);
    }
  }

  /** So in every reachable state where no publish is outstanding and the lock is free. */
  lemma StatementsGoThrough(mode: Mode, ids: set<nat>, steps: seq<Step>, c: nat, ddl: string)
    requires Safe(mode)
    ensures var w := Run(mode, ids, steps);
            var after := Run(mode, ids, steps + Steps(c, Statement(mode, ddl, true)));
            c in w.connections && w.connections[c].phase.Idle? && w.writer.None? && !HasUnpublished(w) ==>
              && after.committed == after.shared == w.committed + [ddl] && after.writer.None?
              && Run(mode, ids, steps + Steps(c, Statement(mode, ddl, false))).shared == w.shared
  {
    hide Run, HasUnpublished, Do;
    EveryRunKeepsInvariant(mode, ids, steps);
    var w := Run(mode, ids, steps);
    if c in w.connections && w.connections[c].phase.Idle? && w.writer.None? && !HasUnpublished(w) {
      assert Sound(mode, w, c, w.connections[c]);
      RunThenDo(mode, ids, steps, c, Statement(mode, ddl, true));
      RunThenDo(mode, ids, steps, c, Statement(mode, ddl, false));
      UndisturbedStatement(mode, w, c, ddl, true);
      UndisturbedStatement(mode, w, c, ddl, false);
    }
  }
}
