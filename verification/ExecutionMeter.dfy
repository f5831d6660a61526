/** The shared execution meter (`core/execution_meter.rs`): any number of VMs updating counters and
    exhaustion flags, one atomic operation at a time and in any order. */
module ExecutionMeter {
  import opened Common

  type U64 = n: int | 0 <= n < U64_LIMIT

  const U64_MAX: U64 := U64_LIMIT - 1

  function SaturatingAdd(a: U64, b: U64): (r: U64)
    ensures a <= r <= a + b
  {
    if a + b > U64_MAX then U64_MAX else a + b
  }

  predicate Over(value: U64, limit: Option<U64>) {
    limit.Some? && value > limit.value
  }

  datatype Limits = Limits(maxVmSteps: Option<U64>, maxRowsRead: Option<U64>, maxRowMutations: Option<U64>,
                           separateSchemaReads: bool, maxSchemaRowsRead: Option<U64>)

  /** The exhaustion flags, in the order `is_budget_exhausted` loads them. */
  datatype Flag = ReadFlag | SchemaFlag | VmFlag | MutationFlag

  /** `ExecutionState`. */
  datatype State = State(rowsRead: U64, schemaRowsRead: U64, rowsWritten: U64, rowMutations: U64, vmSteps: U64,
                         flags: set<Flag>)

  /** The next atomic operation of a call in progress. `Load` is one flag test of `is_budget_exhausted`,
      either at the head of `take_vm_step` or as the result of a recording call. */
  datatype Phase =
    | Idle
    | Load(flag: Flag, takingStep: bool)
    | UpdateSteps
    | UpdateSchemaRows(count: U64)
    | UpdateRows(count: U64)
    | UpdateMutations
    | Store(stored: Flag)
    | Stopped

  /** One VM with its view of the meter. It stops at its first `false`. The last four fields record what it
      did: dispatches granted, and the size of the one event per counter that found its limit crossed. */
  datatype Vm = Vm(suppressRowMutations: bool, phase: Phase, granted: nat,
                   rowsCrossing: nat, schemaCrossing: nat, mutationCrossing: nat)

  datatype System = System(limits: Limits, state: State, vms: seq<Vm>)

  /** Calls a VM can make. */
  datatype Call = TakeVmStep | RecordRowsRead(count: U64, isSchema: bool) | RecordRowMutation | RecordRowsWritten(count: U64)

  datatype Move = Begin(call: Call) | Advance

  function FirstPhase(vm: Vm, call: Call): Phase {
    match call
    case TakeVmStep => Load(ReadFlag, true)
    case RecordRowsRead(count, isSchema) => if isSchema then UpdateSchemaRows(count) else UpdateRows(count)
    case RecordRowMutation => if vm.suppressRowMutations then Load(ReadFlag, false) else UpdateMutations
    case RecordRowsWritten(_) => Idle
  }

  /** Where a flag test that finds its flag clear goes next. */
  function NextLoad(flag: Flag, takingStep: bool): Phase {
    match flag
    case ReadFlag => Load(SchemaFlag, takingStep)
    case SchemaFlag => Load(VmFlag, takingStep)
    case VmFlag => Load(MutationFlag, takingStep)
    case MutationFlag => if takingStep then UpdateSteps else Idle
  }

  /** One atomic operation of one VM. */
  function Act(limits: Limits, s: State, vm: Vm, move: Move): (State, Vm) {
    match (move, vm.phase)
    case (Begin(call), Idle) =>
      (if call.RecordRowsWritten? then s.(rowsWritten := SaturatingAdd(s.rowsWritten, call.count)) else s,
       vm.(phase := FirstPhase(vm, call)))
    case (Advance, Load(flag, takingStep)) =>
      (s, vm.(phase := if flag in s.flags then Stopped else NextLoad(flag, takingStep)))
    case (Advance, UpdateSteps) =>
      if limits.maxVmSteps.Some? && s.vmSteps >= limits.maxVmSteps.value then (s, vm.(phase := Store(VmFlag)))
      else (s.(vmSteps := SaturatingAdd(s.vmSteps, 1)), vm.(phase := Idle, granted := vm.granted + 1))
    case (Advance, UpdateSchemaRows(count)) =>
      var s' := s.(schemaRowsRead := SaturatingAdd(s.schemaRowsRead, count));
      if !limits.separateSchemaReads then (s', vm.(phase := UpdateRows(count)))
      else if Over(s'.schemaRowsRead, limits.maxSchemaRowsRead) then (s', vm.(phase := Store(SchemaFlag), schemaCrossing := count))
      else (s', vm.(phase := Load(ReadFlag, false)))
    case (Advance, UpdateRows(count)) =>
      var s' := s.(rowsRead := SaturatingAdd(s.rowsRead, count));
      if Over(s'.rowsRead, limits.maxRowsRead) then (s', vm.(phase := Store(ReadFlag), rowsCrossing := count))
      else (s', vm.(phase := Idle))
    case (Advance, UpdateMutations) =>
      var s' := s.(rowMutations := SaturatingAdd(s.rowMutations, 1));
      if Over(s'.rowMutations, limits.maxRowMutations) then (s', vm.(phase := Store(MutationFlag), mutationCrossing := 1))
      else (s', vm.(phase := Idle))
    case (Advance, Store(flag)) => (s.(flags := s.flags + {flag}), vm.(phase := Stopped))
    case _ => (s, vm)
  }

  function Next(sys: System, i: nat, move: Move): System
    requires i < |sys.vms|
  {
    var (s, vm) := Act(sys.limits, sys.state, sys.vms[i], move);
    sys.(state := s, vms := sys.vms[i := vm])
  }

  datatype Event = Event(vm: nat, move: Move)

  /** Every interleaving: any VM may perform its next atomic operation at any time. */
  function Run(sys: System, events: seq<Event>): (r: System)
    ensures |r.vms| == |sys.vms| && r.limits == sys.limits
    decreases |events|
  {
    if events == [] then sys
    else if events[0].vm < |sys.vms| then Run(Next(sys, events[0].vm, events[0].move), events[1..])
    else Run(sys, events[1..])
  }

  const NEW_STATE: State := State(0, 0, 0, 0, 0, {})

  function NewVm(suppressRowMutations: bool): Vm {
    Vm(suppressRowMutations, Idle, 0, 0, 0, 0)
  }

  /** A fresh meter shared by VMs through ordinary or mutation-suppressing views. */
  function Start(limits: Limits, views: seq<bool>): System {
    System(limits, NEW_STATE, seq(|views|, i requires 0 <= i < |views| => NewVm(views[i])))
  }

  // ----- Sums over the VMs

  function Sum(vms: seq<Vm>, f: Vm -> nat): nat {
    if vms == [] then 0 else f(vms[0]) + Sum(vms[1..], f)
  }

  lemma {:induction false} SumOfUpdate(vms: seq<Vm>, i: nat, vm: Vm, f: Vm -> nat)
    requires i < |vms|
    ensures Sum(vms[i := vm], f) == Sum(vms, f) - f(vms[i]) + f(vm)
  {
    if i == 0 {
      assert vms[0 := vm][1..] == vms[1..];
    } else {
      SumOfUpdate(vms[1..], i - 1, vm, f);
      assert vms[i := vm][1..] == vms[1..][i - 1 := vm];
    }
  }

  lemma {:induction false} SumBound(vms: seq<Vm>, f: Vm -> nat, k: nat)
    requires forall vm :: vm in vms ==> f(vm) <= k
    ensures Sum(vms, f) <= k * |vms|
  {
    if vms != [] {
      assert vms[0] in vms;
      SumBound(vms[1..], f, k);
      assert k * |vms| == k + k * |vms[1..]|;
    }
  }

  // ----- What every interleaving keeps

  const Granted: Vm -> nat := (vm: Vm) => vm.granted
  const RowsCrossing: Vm -> nat := (vm: Vm) => vm.rowsCrossing
  const SchemaCrossing: Vm -> nat := (vm: Vm) => vm.schemaCrossing
  const MutationCrossing: Vm -> nat := (vm: Vm) => vm.mutationCrossing

  /** A VM that crossed a limit is past recording: it is raising the flag or has stopped. */
  predicate Settled(vm: Vm, flag: Flag) {
    vm.phase == Store(flag) || vm.phase == Stopped
  }

  predicate VmInvariant(vm: Vm) {
    && (vm.rowsCrossing > 0 ==> Settled(vm, ReadFlag))
    && (vm.schemaCrossing > 0 ==> Settled(vm, SchemaFlag))
    && (vm.mutationCrossing > 0 ==> Settled(vm, MutationFlag))
    && vm.mutationCrossing <= 1
  }

  /** The budget behind a flag really is spent. */
  predicate Spent(limits: Limits, s: State, flag: Flag) {
    match flag
    case ReadFlag => Over(s.rowsRead, limits.maxRowsRead)
    case SchemaFlag => limits.separateSchemaReads && Over(s.schemaRowsRead, limits.maxSchemaRowsRead)
    case VmFlag => limits.maxVmSteps.Some? && s.vmSteps >= limits.maxVmSteps.value
    case MutationFlag => Over(s.rowMutations, limits.maxRowMutations)
  }

  ghost predicate Bounded(sys: System) {
    var l, s, vms := sys.limits, sys.state, sys.vms;
    && (l.maxVmSteps.Some? ==> s.vmSteps == Sum(vms, Granted) <= l.maxVmSteps.value)
    && (l.maxRowsRead.Some? ==> s.rowsRead <= l.maxRowsRead.value + Sum(vms, RowsCrossing))
    && (l.maxRowMutations.Some? ==> s.rowMutations <= l.maxRowMutations.value + Sum(vms, MutationCrossing))
    && (l.separateSchemaReads && l.maxSchemaRowsRead.Some? ==>
          s.schemaRowsRead <= l.maxSchemaRowsRead.value + Sum(vms, SchemaCrossing))
    && forall i :: 0 <= i < |vms| ==> VmInvariant(vms[i])
  }

  /** Flags are raised only for spent budgets, and a row, schema or mutation budget that is overdrawn has
      its flag up or about to be raised. */
  ghost predicate Flagged(sys: System) {
    && (forall f :: f in sys.state.flags ==> Spent(sys.limits, sys.state, f))
    && (forall i :: 0 <= i < |sys.vms| && sys.vms[i].phase.Store? ==> Spent(sys.limits, sys.state, sys.vms[i].phase.stored))
    && (forall f :: f != VmFlag && Spent(sys.limits, sys.state, f) ==> Raised(sys, f))
  }

  ghost predicate Raised(sys: System, f: Flag) {
    f in sys.state.flags || exists i :: 0 <= i < |sys.vms| && sys.vms[i].phase == Store(f)
  }

  /** What one atomic operation does to a counter with a limit: the counter stays within the limit, or grows by
      no more than the crossing its VM records. */
  predicate WithinOrCharged(limit: Option<U64>, before: U64, after: U64, chargedBefore: nat, chargedAfter: nat) {
    && chargedBefore <= chargedAfter
    && (limit.Some? ==> after <= limit.value || after - before <= chargedAfter - chargedBefore)
  }

  lemma ActIsCharged(limits: Limits, s: State, vm: Vm, move: Move)
    requires VmInvariant(vm)
    ensures var (s', vm') := Act(limits, s, vm, move);
            && VmInvariant(vm')
            && WithinOrCharged(limits.maxRowsRead, s.rowsRead, s'.rowsRead, vm.rowsCrossing, vm'.rowsCrossing)
            && WithinOrCharged(limits.maxRowMutations, s.rowMutations, s'.rowMutations, vm.mutationCrossing, vm'.mutationCrossing)
            && (limits.separateSchemaReads ==>
                  WithinOrCharged(limits.maxSchemaRowsRead, s.schemaRowsRead, s'.schemaRowsRead, vm.schemaCrossing, vm'.schemaCrossing))
  {
  }

  lemma ActReservesSteps(limits: Limits, s: State, vm: Vm, move: Move)
    requires limits.maxVmSteps.Some? && s.vmSteps <= limits.maxVmSteps.value
    ensures var (s', vm') := Act(limits, s, vm, move);
            s'.vmSteps - s.vmSteps == vm'.granted - vm.granted && s'.vmSteps <= limits.maxVmSteps.value
  {
  }

  lemma NextKeepsBounded(sys: System, i: nat, move: Move)
    requires Bounded(sys) && i < |sys.vms|
    ensures Bounded(Next(sys, i, move))
  {
    hide Act, VmInvariant;
    var vm := Act(sys.limits, sys.state, sys.vms[i], move).1;
    SumOfUpdate(sys.vms, i, vm, Granted);
    SumOfUpdate(sys.vms, i, vm, RowsCrossing);
    SumOfUpdate(sys.vms, i, vm, SchemaCrossing);
    SumOfUpdate(sys.vms, i, vm, MutationCrossing);
    ActIsCharged(sys.limits, sys.state, sys.vms[i], move);
    if sys.limits.maxVmSteps.Some? {
      ActReservesSteps(sys.limits, sys.state, sys.vms[i], move);
    }
  }

  lemma NextKeepsFlagged(sys: System, i: nat, move: Move)
    requires Flagged(sys) && i < |sys.vms|
    ensures Flagged(Next(sys, i, move))
  {
    hide Act;
    var sys' := Next(sys, i, move);
    ActRaises(sys.limits, sys.state, sys.vms[i], move);
    forall f | f != VmFlag && Spent(sys'.limits, sys'.state, f) ensures Raised(sys', f) {
      if Spent(sys.limits, sys.state, f) && f !in sys.state.flags {
        var j :| 0 <= j < |sys.vms| && sys.vms[j].phase == Store(f);
        assert sys'.vms[j].phase == Store(f) || f in sys'.state.flags;
      } else if !Spent(sys.limits, sys.state, f) {
        assert sys'.vms[i].phase == Store(f);
      }
    }
  }

  /** Budgets stay spent, flags stay up, a newly spent budget sends its VM to raise the flag, and only a spent
      budget's flag is raised. */
  lemma ActRaises(limits: Limits, s: State, vm: Vm, move: Move)
    ensures var (s', vm') := Act(limits, s, vm, move);
            && s.flags <= s'.flags
            && (forall f :: Spent(limits, s, f) ==> Spent(limits, s', f))
            && (forall f :: f in s'.flags ==> f in s.flags || vm.phase == Store(f))
            && (vm.phase.Store? && vm'.phase != vm.phase ==> vm.phase.stored in s'.flags)
            && (vm'.phase.Store? && vm'.phase != vm.phase ==> Spent(limits, s', vm'.phase.stored))
            && (forall f :: f != VmFlag && Spent(limits, s', f) && !Spent(limits, s, f) ==> vm'.phase == Store(f))
  {
  }

  lemma {:induction false} EveryRunBounded(sys: System, events: seq<Event>)
    requires Bounded(sys) && Flagged(sys)
    ensures Bounded(Run(sys, events)) && Flagged(Run(sys, events))
    decreases |events|
  {
    hide Bounded, Flagged, Next;
    if events != [] {
      if events[0].vm < |sys.vms| {
        NextKeepsBounded(sys, events[0].vm, events[0].move);
        NextKeepsFlagged(sys, events[0].vm, events[0].move);
        var next := Next(sys, events[0].vm, events[0].move);
        NextKeepsShape(sys, events[0].vm, events[0].move);
        EveryRunBounded(next, events[1..]);
      } else {
        EveryRunBounded(sys, events[1..]);
      }
    }
  }

  lemma NextKeepsShape(sys: System, i: nat, move: Move)
    requires i < |sys.vms|
    ensures |Next(sys, i, move).vms| == |sys.vms| && Next(sys, i, move).limits == sys.limits
    ensures sys.state.flags <= Next(sys, i, move).state.flags
  {
  }

  /** From a fresh meter, under every interleaving of any number of VMs: dispatches granted never exceed the
      step limit, rows and mutations exceed theirs by at most one event per VM, and flags match budgets. */
  lemma EveryInterleavingStaysInBudget(limits: Limits, views: seq<bool>, events: seq<Event>)
    ensures Bounded(Run(Start(limits, views), events)) && Flagged(Run(Start(limits, views), events))
    ensures var sys := Run(Start(limits, views), events);
            && (limits.maxVmSteps.Some? ==> Sum(sys.vms, Granted) <= limits.maxVmSteps.value)
            && (limits.maxRowMutations.Some? ==> sys.state.rowMutations <= limits.maxRowMutations.value + |views|)
  {
    var start := Start(limits, views);
    NothingYet(start.vms, Granted);
    NothingYet(start.vms, RowsCrossing);
    NothingYet(start.vms, SchemaCrossing);
    NothingYet(start.vms, MutationCrossing);
    EveryRunBounded(start, events);
    var sys := Run(start, events);
    forall vm | vm in sys.vms ensures MutationCrossing(vm) <= 1 {
      var i :| 0 <= i < |sys.vms| && sys.vms[i] == vm;
      assert VmInvariant(sys.vms[i]);
    }
    SumBound(sys.vms, MutationCrossing, 1);
  }

  lemma {:induction false} NothingYet(vms: seq<Vm>, f: Vm -> nat)
    requires forall vm :: vm in vms ==> f(vm) == 0
    ensures Sum(vms, f) == 0
  {
    if vms != [] {
      assert vms[0] in vms;
      NothingYet(vms[1..], f);
    }
  }

  /** The row bound in plain numbers: if no event counts more than `k` rows, the overshoot is at most `k`
      per VM. */
  lemma RowOvershoot(limits: Limits, views: seq<bool>, events: seq<Event>, k: nat)
    requires limits.maxRowsRead.Some?
    requires forall e :: e in events && e.move.Begin? && e.move.call.RecordRowsRead? ==> e.move.call.count <= k
    ensures Run(Start(limits, views), events).state.rowsRead <= limits.maxRowsRead.value + k * |views|
  {
    var start := Start(limits, views);
    EveryInterleavingStaysInBudget(limits, views, events);
    SmallEvents(start, events, k);
    var sys := Run(start, events);
    forall vm | vm in sys.vms ensures RowsCrossing(vm) <= k {
      var i :| 0 <= i < |sys.vms| && sys.vms[i] == vm;
      assert Small(sys.vms[i], k);
    }
    SumBound(sys.vms, RowsCrossing, k);
  }

  predicate Small(vm: Vm, k: nat) {
    && vm.rowsCrossing <= k
    && (vm.phase.UpdateRows? || vm.phase.UpdateSchemaRows? ==> vm.phase.count <= k)
  }

  lemma {:induction false} SmallEvents(sys: System, events: seq<Event>, k: nat)
    requires forall i :: 0 <= i < |sys.vms| ==> Small(sys.vms[i], k)
    requires forall e :: e in events && e.move.Begin? && e.move.call.RecordRowsRead? ==> e.move.call.count <= k
    ensures forall i :: 0 <= i < |sys.vms| ==> Small(Run(sys, events).vms[i], k)
    decreases |events|
  {
    if events != [] {
      assert events[0] in events;
      if events[0].vm < |sys.vms| {
        SmallEvents(Next(sys, events[0].vm, events[0].move), events[1..], k);
      } else {
        SmallEvents(sys, events[1..], k);
      }
    }
  }

  // ----- Exhaustion is final

  /** Flags still to be loaded when a test of `flag` is next. */
  function StillToLoad(flag: Flag): set<Flag> {
    match flag
    case ReadFlag => {ReadFlag, SchemaFlag, VmFlag, MutationFlag}
    case SchemaFlag => {SchemaFlag, VmFlag, MutationFlag}
    case VmFlag => {VmFlag, MutationFlag}
    case MutationFlag => {MutationFlag}
  }

  /** A call that will return `false`: it has stopped, or a flag it has yet to load is up. */
  ghost predicate Doomed(sys: System, i: nat) {
    && i < |sys.vms|
    && match sys.vms[i].phase
       case Stopped => true
       case Load(flag, _) => sys.state.flags * StillToLoad(flag) != {}
       case _ => false
  }

  lemma NextKeepsDoomed(sys: System, i: nat, j: nat, move: Move)
    requires Doomed(sys, i) && j < |sys.vms|
    ensures Doomed(Next(sys, j, move), i)
  {
  }

  /** Once any budget flag is up, a dispatch requested through any view of the meter is never granted,
      whatever the other VMs do meanwhile. */
  lemma {:induction false} ExhaustionIsFinal(sys: System, i: nat, events: seq<Event>)
    requires i < |sys.vms| && sys.vms[i].phase == Idle && sys.state.flags != {}
    ensures var sys' := Run(Next(sys, i, Begin(TakeVmStep)), events);
            Doomed(sys', i) && sys'.vms[i].granted == sys.vms[i].granted
  {
    var f :| f in sys.state.flags;
    var called := Next(sys, i, Begin(TakeVmStep));
    assert f == ReadFlag || f == SchemaFlag || f == VmFlag || f == MutationFlag;
    assert f in called.state.flags * StillToLoad(ReadFlag);
    DoomedRun(called, i, events);
  }

  lemma {:induction false} DoomedRun(sys: System, i: nat, events: seq<Event>)
    requires Doomed(sys, i)
    ensures Doomed(Run(sys, events), i) && Run(sys, events).vms[i].granted == sys.vms[i].granted
    decreases |events|
  {
    if events != [] {
      if events[0].vm < |sys.vms| {
        NextKeepsDoomed(sys, i, events[0].vm, events[0].move);
        DoomedRun(Next(sys, events[0].vm, events[0].move), i, events[1..]);
      } else {
        DoomedRun(sys, i, events[1..]);
      }
    }
  }

  // ----- A call nobody disturbs

  /** A VM carrying on alone for a number of atomic operations. */
  function Alone(limits: Limits, s: State, vm: Vm, n: nat): (State, Vm)
    decreases n
  {
    if n == 0 then (s, vm)
    else
      var (s', vm') := Act(limits, s, vm, Advance);
      Alone(limits, s', vm', n - 1)
  }

  /** A whole call; none takes more than six operations. */
  function Perform(limits: Limits, s: State, vm: Vm, call: Call): (State, Vm) {
    var (s', vm') := Act(limits, s, vm, Begin(call));
    Alone(limits, s', vm', 6)
  }

  lemma {:induction false} RestStays(limits: Limits, s: State, vm: Vm, n: nat)
    requires vm.phase == Stopped || vm.phase == Idle
    ensures Alone(limits, s, vm, n) == (s, vm)
  {
    if n > 0 {
      RestStays(limits, s, vm, n - 1);
    }
  }

  lemma AloneOnce(limits: Limits, s: State, vm: Vm, n: nat)
    ensures var (s', vm') := Act(limits, s, vm, Advance); Alone(limits, s, vm, n + 1) == Alone(limits, s', vm', n)
  {
  }

  lemma AloneTests(limits: Limits, s: State, vm: Vm, n: nat)
    requires vm.phase.Load?
    ensures Alone(limits, s, vm, n + 1) ==
            if vm.phase.flag in s.flags then (s, vm.(phase := Stopped))
            else Alone(limits, s, vm.(phase := NextLoad(vm.phase.flag, vm.phase.takingStep)), n)
  {
    RestStays(limits, s, vm.(phase := Stopped), n);
  }

  /** The four flag tests, with operations to spare. */
  lemma AloneThroughTests(limits: Limits, s: State, vm: Vm, takingStep: bool, n: nat)
    requires vm.phase == Load(ReadFlag, takingStep)
    ensures Alone(limits, s, vm, n + 4) ==
            if s.flags != {} then (s, vm.(phase := Stopped))
            else Alone(limits, s, vm.(phase := if takingStep then UpdateSteps else Idle), n)
  {
    hide Alone;
    var vm1, vm2 := vm.(phase := Load(SchemaFlag, takingStep)), vm.(phase := Load(VmFlag, takingStep));
    var vm3 := vm.(phase := Load(MutationFlag, takingStep));
    AloneTests(limits, s, vm, n + 3);
    AloneTests(limits, s, vm1, n + 2);
    AloneTests(limits, s, vm2, n + 1);
    AloneTests(limits, s, vm3, n);
    if s.flags != {} {
      var flag :| flag in s.flags;
      assert flag.ReadFlag? || flag.SchemaFlag? || flag.VmFlag? || flag.MutationFlag?;
    }
  }

  lemma AloneStores(limits: Limits, s: State, vm: Vm, n: nat)
    requires vm.phase.Store?
    ensures Alone(limits, s, vm, n + 1) == (s.(flags := s.flags + {vm.phase.stored}), vm.(phase := Stopped))
  {
    RestStays(limits, s.(flags := s.flags + {vm.phase.stored}), vm.(phase := Stopped), n);
  }

  /** Undisturbed, a dispatch is granted exactly when no budget is spent and a step is left, and counts one step; a
      refusal for want of steps raises the flag, and either refusal stops the VM. */
  lemma UndisturbedStep(limits: Limits, s: State, vm: Vm)
    requires vm.phase == Idle
    ensures var (s', vm') := Perform(limits, s, vm, TakeVmStep);
            var left := limits.maxVmSteps.None? || s.vmSteps < limits.maxVmSteps.value;
            if s.flags == {} && left
            then vm' == vm.(granted := vm.granted + 1) && s' == s.(vmSteps := SaturatingAdd(s.vmSteps, 1))
            else vm' == vm.(phase := Stopped) && s' == if s.flags == {} then s.(flags := {VmFlag}) else s
  {
    hide Alone;
    var vm0, vm1 := vm.(phase := Load(ReadFlag, true)), vm.(phase := UpdateSteps);
    AloneThroughTests(limits, s, vm0, true, 2);
    AloneOnce(limits, s, vm1, 1);
    var (s', vm') := Act(limits, s, vm1, Advance);
    if vm'.phase.Store? {
      AloneStores(limits, s', vm', 0);
    } else {
      RestStays(limits, s', vm', 1);
    }
  }

  /** Undisturbed, rows read grow the row counter by their number, rows of the schema the schema counter, and that
      alone if the two are kept apart. The call fails, and raises the counter's flag, exactly when it takes that counter
      past its limit; a separate schema read also fails when any flag was up. */
  lemma UndisturbedRowsRead(limits: Limits, s: State, vm: Vm, count: U64, isSchema: bool)
    requires vm.phase == Idle
    ensures var (s', vm') := Perform(limits, s, vm, RecordRowsRead(count, isSchema));
            var schemaRows := if isSchema then SaturatingAdd(s.schemaRowsRead, count) else s.schemaRowsRead;
            var apart := isSchema && limits.separateSchemaReads;
            var rows := if apart then s.rowsRead else SaturatingAdd(s.rowsRead, count);
            var crossed := if apart then Over(schemaRows, limits.maxSchemaRowsRead) else Over(rows, limits.maxRowsRead);
            && s' == s.(schemaRowsRead := schemaRows, rowsRead := rows,
                        flags := s.flags + if !crossed then {} else if apart then {SchemaFlag} else {ReadFlag})
            && vm'.granted == vm.granted
            && vm'.phase == if crossed || (apart && s.flags != {}) then Stopped else Idle
  {
    hide Alone;
    var vm1 := vm.(phase := if isSchema then UpdateSchemaRows(count) else UpdateRows(count));
    if isSchema {
      AloneOnce(limits, s, vm1, 5);
      var (s1, vm2) := Act(limits, s, vm1, Advance);
      if limits.separateSchemaReads {
        if vm2.phase.Store? {
          AloneStores(limits, s1, vm2, 4);
        } else {
          AloneThroughTests(limits, s1, vm2, false, 1);
          RestStays(limits, s1, vm2.(phase := Idle), 1);
        }
      } else {
        AloneCountsRows(limits, s1, vm2, count, 3);
      }
    } else {
      AloneCountsRows(limits, s, vm1, count, 4);
    }
  }

  lemma AloneCountsRows(limits: Limits, s: State, vm: Vm, count: U64, n: nat)
    requires vm.phase == UpdateRows(count)
    ensures var rows := SaturatingAdd(s.rowsRead, count);
            Alone(limits, s, vm, n + 2) ==
            if Over(rows, limits.maxRowsRead)
            then (s.(rowsRead := rows, flags := s.flags + {ReadFlag}), vm.(phase := Stopped, rowsCrossing := count))
            else (s.(rowsRead := rows), vm.(phase := Idle))
  {
    hide Alone;
    AloneOnce(limits, s, vm, n + 1);
    var (s', vm') := Act(limits, s, vm, Advance);
    if vm'.phase.Store? {
      AloneStores(limits, s', vm', n);
    } else {
      RestStays(limits, s', vm', n + 1);
    }
  }

  /** Undisturbed, a row mutation counts one and fails, raising the flag, exactly when that crosses the limit. Through a
      view that suppresses mutations it counts nothing and fails exactly when some flag is up. */
  lemma UndisturbedMutation(limits: Limits, s: State, vm: Vm)
    requires vm.phase == Idle
    ensures var (s', vm') := Perform(limits, s, vm, RecordRowMutation);
            var mutations := SaturatingAdd(s.rowMutations, 1);
            var crossed := Over(mutations, limits.maxRowMutations);
            if vm.suppressRowMutations
            then s' == s && vm' == vm.(phase := if s.flags == {} then Idle else Stopped)
            else
              && s' == s.(rowMutations := mutations, flags := s.flags + if crossed then {MutationFlag} else {})
              && vm'.granted == vm.granted && vm'.phase == if crossed then Stopped else Idle
  {
    hide Alone;
    if vm.suppressRowMutations {
      AloneThroughTests(limits, s, vm.(phase := Load(ReadFlag, false)), false, 2);
      RestStays(limits, s, vm, 2);
    } else {
      var vm1 := vm.(phase := UpdateMutations);
      AloneOnce(limits, s, vm1, 5);
      var (s', vm') := Act(limits, s, vm1, Advance);
      if vm'.phase.Store? {
        AloneStores(limits, s', vm', 4);
      } else {
        RestStays(limits, s', vm', 5);
      }
    }
  }

  /** Rows written are only counted. */
  lemma UndisturbedRowsWritten(limits: Limits, s: State, vm: Vm, count: U64)
    requires vm.phase == Idle
    ensures Perform(limits, s, vm, RecordRowsWritten(count)) ==
            (s.(rowsWritten := SaturatingAdd(s.rowsWritten, count)), vm)
  {
    RestStays(limits, s.(rowsWritten := SaturatingAdd(s.rowsWritten, count)), vm, 6);
  }

  // ----- Nothing goes uncounted

  datatype Counter = Rows | SchemaRows | Mutations | Written

  function Value(s: State, k: Counter): U64 {
    match k
    case Rows => s.rowsRead
    case SchemaRows => s.schemaRowsRead
    case Mutations => s.rowMutations
    case Written => s.rowsWritten
  }

  /** What a call is to add to a counter. */
  function Worth(limits: Limits, suppressed: bool, call: Call, k: Counter): nat {
    match call
    case TakeVmStep => 0
    case RecordRowsRead(count, isSchema) =>
      if (k.Rows? && (!isSchema || !limits.separateSchemaReads)) || (k.SchemaRows? && isSchema) then count else 0
    case RecordRowMutation => if k.Mutations? && !suppressed then 1 else 0
    case RecordRowsWritten(count) => if k.Written? then count else 0
  }

  /** What a VM in the middle of a call has still to add. */
  function Due(limits: Limits, vm: Vm, k: Counter): nat {
    match vm.phase
    case UpdateSchemaRows(count) => if k.SchemaRows? || (k.Rows? && !limits.separateSchemaReads) then count else 0
    case UpdateRows(count) => if k.Rows? then count else 0
    case UpdateMutations => if k.Mutations? then 1 else 0
    case _ => 0
  }

  /** What a move asks for: a call begins only when the VM is idle. */
  function Asked(limits: Limits, vm: Vm, move: Move, k: Counter): nat {
    if move.Begin? && vm.phase == Idle then Worth(limits, vm.suppressRowMutations, move.call, k) else 0
  }

  function AskedIn(sys: System, events: seq<Event>, k: Counter): nat
    decreases |events|
  {
    if events == [] then 0
    else if events[0].vm < |sys.vms| then
      Asked(sys.limits, sys.vms[events[0].vm], events[0].move, k) +
      AskedIn(Next(sys, events[0].vm, events[0].move), events[1..], k)
    else AskedIn(sys, events[1..], k)
  }

  function AllDue(sys: System, k: Counter): nat {
    Sum(sys.vms, (vm: Vm) => Due(sys.limits, vm, k))
  }

  function Saturated(n: nat): U64 {
    if n > U64_MAX then U64_MAX else n
  }

  lemma ActConserves(limits: Limits, s: State, vm: Vm, move: Move, k: Counter, total: nat)
    requires Value(s, k) == Saturated(total)
    ensures var (s', vm') := Act(limits, s, vm, move);
            var total' := total + Due(limits, vm, k) + Asked(limits, vm, move, k) - Due(limits, vm', k);
            total' >= 0 && Value(s', k) == Saturated(total')
  {
  }

  lemma NextConserves(sys: System, i: nat, move: Move, k: Counter, total: nat)
    requires i < |sys.vms| && Value(sys.state, k) == Saturated(total)
    ensures var sys' := Next(sys, i, move);
            var total' := total + AllDue(sys, k) + Asked(sys.limits, sys.vms[i], move, k) - AllDue(sys', k);
            total' >= 0 && Value(sys'.state, k) == Saturated(total')
  {
    hide Act, Sum, Asked, Value;
    ActConserves(sys.limits, sys.state, sys.vms[i], move, k, total);
    var (s', vm') := Act(sys.limits, sys.state, sys.vms[i], move);
    SumOfUpdate(sys.vms, i, vm', (vm: Vm) => Due(sys.limits, vm, k));
  }

  lemma {:induction false} RunConserves(sys: System, events: seq<Event>, k: Counter, total: nat)
    requires Value(sys.state, k) == Saturated(total)
    ensures var sys' := Run(sys, events);
            var total' := total + AllDue(sys, k) + AskedIn(sys, events, k) - AllDue(sys', k);
            total' >= 0 && Value(sys'.state, k) == Saturated(total')
    decreases |events|
  {
    hide Next, Asked, AllDue, Value, Saturated;
    if events != [] {
      if events[0].vm < |sys.vms| {
        var next := Next(sys, events[0].vm, events[0].move);
        NextConserves(sys, events[0].vm, events[0].move, k, total);
        var total' := total + AllDue(sys, k) + Asked(sys.limits, sys.vms[events[0].vm], events[0].move, k) - AllDue(next, k);
        RunConserves(next, events[1..], k, total');
      } else {
        RunConserves(sys, events[1..], k, total);
      }
    }
  }

  /** In every interleaving, every counter is what the calls begun so far ask for, less what is still to be added, at the
      most the largest number it can hold. */
  lemma NothingGoesUncounted(limits: Limits, views: seq<bool>, events: seq<Event>, k: Counter)
    ensures var sys := Run(Start(limits, views), events);
            var asked := AskedIn(Start(limits, views), events, k);
            AllDue(sys, k) <= asked && Value(sys.state, k) == Saturated(asked - AllDue(sys, k))
  {
    hide Run, AskedIn;
    var start := Start(limits, views);
    NothingYet(start.vms, (vm: Vm) => Due(limits, vm, k));
    assert AllDue(start, k) == 0;
    RunConserves(start, events, k, 0);
  }
}
