/** The incremental blob handle (`core/incremental_blob.rs`): a paused program that serves reads and
    writes of one value, refining an in-place byte array with an expiry latch. */
module BlobHandle {
  import opened Common
  import opened BlobProgram

  // ----- The machine

  /** A stored column value: TEXT and BLOB are addressable byte by byte, other values are not. */
  datatype Cell = Addressable(bytes: seq<Byte>) | Other

  type Table = map<int, Cell>

  /** Once positioned, a cursor is pinned to its row; a write to that row by anyone else expires it. */
  datatype Cursor = Closed | Opened | On(rowid: int, expired: bool)

  /** `working` is the table inside the handle's transaction, `committed` what the transaction started from. */
  datatype Machine = Machine(pc: nat, regs: map<nat, Value>, params: map<nat, Value>, cursor: Cursor,
                             working: Table, committed: Table)
  {
    function Reg(r: nat): Value {
      if r in regs then regs[r] else Null
    }

    function Param(i: nat): Value {
      if i in params then params[i] else Null
    }

    function Set(r: nat, v: Value): Machine {
      this.(regs := regs[r := v], pc := pc + 1)
    }

    function Bind(i: nat, v: Value): Machine {
      this.(params := params[i := v])
    }
  }

  datatype Fault = UnresolvedTarget | BadOperand | NotAddressable | NoSuchRowid | OffTheEnd

  datatype Stop = Running(m: Machine) | Row(m: Machine, value: Value) | Done(m: Machine) | Failed(fault: Fault)

  function Splice(s: seq<Byte>, at: nat, data: seq<Byte>): (r: seq<Byte>)
    requires at + |data| <= |s|
    ensures |r| == |s|
    ensures forall k :: 0 <= k < |s| ==> r[k] == if at <= k < at + |data| then data[k - at] else s[k]
  {
    s[..at] + data + s[at + |data|..]
  }

  function Jump(m: Machine, t: Target): Stop {
    if t.Offset? then Running(m.(pc := t.pc)) else Failed(UnresolvedTarget)
  }

  /** The bytes a blob opcode may touch: `None` once the handle has expired. */
  function Pinned(m: Machine): Option<seq<Byte>> {
    match m.cursor
    case On(rowid, expired) =>
      if !expired && rowid in m.working && m.working[rowid].Addressable? then Some(m.working[rowid].bytes) else None
    case _ => None
  }

  /** The non-negative integer a blob opcode expects in an operand register. */
  function Count(v: Value): Option<nat> {
    if v.Integer? && v.n >= 0 then Some(v.n) else None
  }

  /** The acknowledgement of an operation on an expired handle: NULL, and the program goes on. */
  function ExpiredAck(m: Machine, dest: nat): Stop {
    if m.cursor.On? then Running(m.(cursor := m.cursor.(expired := true)).Set(dest, Null)) else Failed(BadOperand)
  }

  function Execute(insn: Insn, m: Machine): Stop {
    match insn
    case Init(t) => Jump(m, t)
    case Transaction(_) => Running(m.(working := m.committed, pc := m.pc + 1))
    case OpenRead => Running(m.(cursor := Opened, pc := m.pc + 1))
    case OpenWrite => Running(m.(cursor := Opened, pc := m.pc + 1))
    case LoadInteger(v, dest) => Running(m.Set(dest, Integer(v)))
    case SeekRowid(src, t) =>
      var key := m.Reg(src);
      if key.Integer? && key.n in m.working then Running(m.(cursor := On(key.n, false), pc := m.pc + 1)) else Jump(m, t)
    case BlobLen(dest) =>
      if Pinned(m).Some? then Running(m.Set(dest, Integer(|Pinned(m).value|))) else Failed(NotAddressable)
    case ResultRow(reg) => Row(m.(pc := m.pc + 1), m.Reg(reg))
    case Variable(i, dest) => Running(m.Set(dest, m.Param(i)))
    case Eq(lhs, rhs, t) =>
      if m.Reg(lhs) != Null && m.Reg(lhs) == m.Reg(rhs) then Jump(m, t) else Running(m.(pc := m.pc + 1))
    case BlobRead(offset, amount, dest) =>
      var off, amt := Count(m.Reg(offset)), Count(m.Reg(amount));
      if off.None? || amt.None? then Failed(BadOperand)
      else if Pinned(m).None? then ExpiredAck(m, dest)
      else if off.value + amt.value > |Pinned(m).value| then Failed(BadOperand)
      else Running(m.Set(dest, Bytes(Pinned(m).value[off.value..off.value + amt.value])))
    case BlobWrite(offset, src, dest) =>
      var off, data := Count(m.Reg(offset)), m.Reg(src);
      if off.None? || !data.Bytes? then Failed(BadOperand)
      else if Pinned(m).None? then ExpiredAck(m, dest)
      else if off.value + |data.bytes| > |Pinned(m).value| then Failed(BadOperand)
      else
        Running(m.(working := m.working[m.cursor.rowid := Addressable(Splice(Pinned(m).value, off.value, data.bytes))])
                 .Set(dest, Integer(1)))
    case Goto(t) => Jump(m, t)
    case Halt(errCode) => if errCode == 0 then Done(m.(committed := m.working)) else Failed(NoSuchRowid)
  }

  function Step(p: seq<Insn>, m: Machine): Stop {
    if m.pc >= |p| then Failed(OffTheEnd) else Execute(p[m.pc], m)
  }

  /** `p` is the program emitted for some row. */
  predicate IsBlobProgram(p: seq<Insn>) {
    |p| > 2 && p[2].LoadInteger? && p == Listing(p[2].value, p[1] == OpenWrite)
  }

  /** The instruction at each address, beside the listing. */
  function InsnAt(rowid: int, readWrite: bool, pc: nat): Insn
    requires pc < 25
  {
    if pc <= 5 then OpenCode(rowid, readWrite)[pc]
    else if pc <= 11 then DispatchCode()[pc - 6]
    else if pc <= 15 then ReadCode()[pc - 12]
    else if pc <= 19 then WriteCode()[pc - 16]
    else EndCode(readWrite)[pc - 20]
  }

  lemma ListingAt(p: seq<Insn>, pc: nat)
    requires IsBlobProgram(p) && pc < 25
    ensures |p| == 25 && p[pc] == InsnAt(p[2].value, p[1] == OpenWrite, pc)
  {
  }

  lemma ListingIsBlobProgram(rowid: int, readWrite: bool)
    ensures IsBlobProgram(Listing(rowid, readWrite)) && Listing(rowid, readWrite)[2].value == rowid
  {
  }

  /** Steps left before the program must stop: every cycle of the listing passes a `ResultRow`. */
  function Rank(pc: nat): nat {
    if pc == 0 then 40
    else if pc == 23 then 39
    else if pc == 24 then 38
    else if pc <= 5 then 37 - pc
    else if pc == 15 || pc == 19 then 30
    else if pc <= 14 then 29 - pc
    else if pc <= 18 then 30 - pc
    else if pc == 20 then 5
    else 4
  }

  /** Where control can go after an instruction that does not stop the program. */
  predicate CanFollow(insn: Insn, pc: nat, next: nat) {
    match insn
    case Init(t) => t == Offset(next)
    case Goto(t) => t == Offset(next)
    case SeekRowid(_, t) => next == pc + 1 || t == Offset(next)
    case Eq(_, _, t) => next == pc + 1 || t == Offset(next)
    case ResultRow(_) => false
    case Halt(_) => false
    case _ => next == pc + 1
  }

  lemma ControlFlow(insn: Insn, m: Machine)
    ensures Execute(insn, m).Running? ==> CanFollow(insn, m.pc, Execute(insn, m).m.pc)
  {
  }

  lemma StepDescends(p: seq<Insn>, m: Machine)
    requires IsBlobProgram(p)
    ensures var stop := Step(p, m);
            stop.Running? ==> Rank(stop.m.pc) < Rank(m.pc)
  {
    hide IsBlobProgram, Execute;
    ListingAt(p, if m.pc < 25 then m.pc else 0);
    if m.pc < 25 {
      ControlFlow(p[m.pc], m);
    }
  }

  /** `pump_step`: run the handle's program to its next row, its end or an error. */
  function Resume(p: seq<Insn>, m: Machine): Stop
    requires IsBlobProgram(p)
    decreases Rank(m.pc)
  {
    var stop := Step(p, m);
    StepDescends(p, m);
    if stop.Running? then Resume(p, stop.m) else stop
  }

  /** One instruction of a resumed program. */
  lemma Tick(p: seq<Insn>, m: Machine)
    requires IsBlobProgram(p) && m.pc < 25
    ensures |p| > 2
    ensures var stop := Execute(InsnAt(p[2].value, p[1] == OpenWrite, m.pc), m);
            Resume(p, m) == if stop.Running? then Resume(p, stop.m) else stop
  {
  }

  /** The handle's program between two operations: parked at the loop head or just before jumping to it. */
  predicate Parked(m: Machine) {
    (m.pc == 6 || m.pc == 15 || m.pc == 19) && m.cursor.On?
  }

  /** Registers once the operation has been dispatched. */
  function Dispatched(m: Machine, pc: nat): Machine {
    m.(pc := pc, regs := m.regs[3 := m.Param(1)][4 := Integer(0)][5 := m.Param(2)][6 := Integer(2)])
  }

  lemma ToLoopHead(p: seq<Insn>, m: Machine)
    requires IsBlobProgram(p) && Parked(m)
    ensures Resume(p, m) == Resume(p, m.(pc := 6))
  {
  }

  /** From the loop head to the read or write arm. */
  lemma Dispatches(p: seq<Insn>, m: Machine)
    requires IsBlobProgram(p) && Parked(m) && m.Param(1).Integer? && m.Param(1).n != 0
    ensures Resume(p, m)
            == Resume(p, Dispatched(m, if m.Param(1).n == 2 then 16 else 12))
  {
    hide IsBlobProgram, Resume, Listing;
    ToLoopHead(p, m);
    var m6 := m.(pc := 6);
    var m7 := m6.Set(3, m.Param(1));
    Tick(p, m6);
    var m8 := m7.Set(4, Integer(0));
    Tick(p, m7);
    var m9 := m8.(pc := 9);
    Tick(p, m8);
    var m10 := m9.Set(5, m.Param(2));
    Tick(p, m9);
    var m11 := m10.Set(6, Integer(2));
    Tick(p, m10);
    Tick(p, m11);
    assert m11 == Dispatched(m, 11);
  }

  /** A bound close halts the program and commits the table as it stands. */
  lemma ClosePath(p: seq<Insn>, m: Machine)
    requires IsBlobProgram(p) && Parked(m) && m.Param(1) == Integer(0)
    ensures var stop := Resume(p, m);
            stop.Done? && stop.m.committed == stop.m.working == m.working
  {
    hide IsBlobProgram, Resume, Listing;
    ToLoopHead(p, m);
    var m6 := m.(pc := 6);
    var m7 := m6.Set(3, m.Param(1));
    Tick(p, m6);
    var m8 := m7.Set(4, Integer(0));
    Tick(p, m7);
    var m20 := m8.(pc := 20);
    Tick(p, m8);
    Tick(p, m20);
    Tick(p, m20.(pc := 22));
  }

  /** A bound read yields the slice asked for, or NULL once the row has been written by someone else. */
  lemma ReadPath(p: seq<Insn>, m: Machine, offset: nat, amount: nat)
    requires IsBlobProgram(p) && Parked(m) && m.Param(1) == Integer(1) && m.Param(2) == Integer(offset) && m.Param(3) == Integer(amount)
    requires Pinned(m).Some? ==> offset + amount <= |Pinned(m).value|
    ensures var stop := Resume(p, m);
            && stop.Row? && Parked(stop.m) && stop.m.working == m.working && stop.m.committed == m.committed
            && stop.value == (if Pinned(m).Some? then Bytes(Pinned(m).value[offset..offset + amount]) else Null)
            && stop.m.cursor == if Pinned(m).Some? then m.cursor else m.cursor.(expired := true)
  {
    hide IsBlobProgram, Resume, Listing;
    Dispatches(p, m);
    var m12 := Dispatched(m, 12);
    var m13 := m12.Set(7, Integer(amount));
    Tick(p, m12);
    Tick(p, m13);
    assert Pinned(m13) == Pinned(m);
    var m14 := Execute(BlobRead(5, 7, 8), m13).m;
    Tick(p, m14);
  }

  /** A bound write overwrites the range in place and answers 1, or changes nothing and answers NULL. */
  lemma WritePath(p: seq<Insn>, m: Machine, offset: nat, data: seq<Byte>)
    requires IsBlobProgram(p) && Parked(m) && m.Param(1) == Integer(2) && m.Param(2) == Integer(offset) && m.Param(4) == Bytes(data)
    requires Pinned(m).Some? ==> offset + |data| <= |Pinned(m).value|
    ensures var stop := Resume(p, m);
            && stop.Row? && Parked(stop.m) && stop.m.committed == m.committed
            && stop.value == (if Pinned(m).Some? then Integer(1) else Null)
            && stop.m.cursor == (if Pinned(m).Some? then m.cursor else m.cursor.(expired := true))
            && stop.m.working == if Pinned(m).Some?
                                 then m.working[m.cursor.rowid := Addressable(Splice(Pinned(m).value, offset, data))]
                                 else m.working
  {
    hide IsBlobProgram, Resume, Listing;
    Dispatches(p, m);
    var m16 := Dispatched(m, 16);
    var m17 := m16.Set(9, Bytes(data));
    Tick(p, m16);
    Tick(p, m17);
    assert Pinned(m17) == Pinned(m);
    var m18 := Execute(BlobWrite(5, 9, 10), m17).m;
    Tick(p, m18);
  }

  const FRESH_REGISTERS: map<nat, Value> := map[]

  function Fresh(table: Table): Machine {
    Machine(0, FRESH_REGISTERS, map[], Closed, table, table)
  }

  lemma FreshMachine(table: Table)
    ensures Fresh(table).working == Fresh(table).committed == table
  {
  }

  /** The prologue opens the transaction and the cursor and loads the rowid. */
  lemma ToSeek(p: seq<Insn>, table: Table)
    requires IsBlobProgram(p)
    ensures Resume(p, Fresh(table))
            == Resume(p, Fresh(table).(pc := 3, cursor := Opened, regs := map[1 := Integer(p[2].value)]))
  {
    hide IsBlobProgram, Resume, Listing;
    ListingAt(p, 2);
    var rowid := p[2].value;
    var m0 := Fresh(table);
    Tick(p, m0);
    var m23 := m0.(pc := 23);
    Tick(p, m23);
    var m24 := m23.(pc := 24);
    Tick(p, m24);
    var m1 := m24.(pc := 1);
    Tick(p, m1);
    var m2 := m1.(cursor := Opened, pc := 2);
    Tick(p, m2);
    assert m2.Set(1, Integer(rowid)) == m0.(pc := 3, cursor := Opened, regs := map[1 := Integer(rowid)]);
  }

  /** On a row, the program reports the value's length and parks. */
  lemma FoundPath(p: seq<Insn>, m: Machine, rowid: int)
    requires IsBlobProgram(p) && m.pc == 4 && m.cursor == On(rowid, false) && rowid in m.working
    ensures var stop := Resume(p, m);
            if m.working[rowid].Other? then stop == Failed(NotAddressable)
            else
              && stop.Row? && stop.value == Integer(|m.working[rowid].bytes|) && Parked(stop.m)
              && stop.m.cursor == m.cursor && stop.m.working == m.working && stop.m.committed == m.committed
  {
  }

  /** The first step of a fresh program parks on an addressable value and reports its length; a missing
      row and a value without bytes are errors. */
  lemma OpenPath(p: seq<Insn>, table: Table)
    requires IsBlobProgram(p)
    ensures var rowid := p[2].value;
            var stop := Resume(p, Fresh(table));
            if rowid !in table then stop == Failed(NoSuchRowid)
            else if table[rowid].Other? then stop == Failed(NotAddressable)
            else
              && stop.Row? && stop.value == Integer(|table[rowid].bytes|) && Parked(stop.m)
              && stop.m.cursor == On(rowid, false) && stop.m.working == stop.m.committed == table
  {
    hide IsBlobProgram, Resume, Listing, Fresh, Parked;
    ListingAt(p, 2);
    var rowid := p[2].value;
    ToSeek(p, table);
    FreshMachine(table);
    var m3 := Fresh(table).(pc := 3, cursor := Opened, regs := map[1 := Integer(rowid)]);
    Tick(p, m3);
    if rowid !in table {
      Tick(p, m3.(pc := 21));
    } else {
      FoundPath(p, m3.(cursor := On(rowid, false), pc := 4), rowid);
    }
  }

  // ----- The reference object

  datatype BlobError = Expired | ReadOnly | OutOfRange | Internal

  /** A byte array inside a table, behind a latch. `expired` is set when the row is written by anyone else;
      `latched` once an operation has noticed. */
  datatype Handle = Handle(table: Table, rowid: int, length: nat, readOnly: bool, expired: bool, latched: bool) {

    ghost predicate Sound() {
      !expired ==> rowid in table && table[rowid].Addressable? && |table[rowid].bytes| == length
    }

    function Read(offset: nat, amount: nat): (Handle, Result<seq<Byte>, BlobError>)
      requires Sound()
    {
      if latched then (this, Err(Expired))
      else if offset + amount > length then (this, Err(OutOfRange))
      else if amount == 0 then (this, Ok([]))
      else if expired then (this.(latched := true), Err(Expired))
      else (this, Ok(table[rowid].bytes[offset..offset + amount]))
    }

    function Write(offset: nat, data: seq<Byte>): (Handle, Result<(), BlobError>)
      requires Sound()
    {
      if latched then (this, Err(Expired))
      else if readOnly then (this, Err(ReadOnly))
      else if offset + |data| > length then (this, Err(OutOfRange))
      else if data == [] then (this, Ok(()))
      else if expired then (this.(latched := true), Err(Expired))
      else (this.(table := table[rowid := Addressable(Splice(table[rowid].bytes, offset, data))]), Ok(()))
    }

    /** Someone else's write: `row` is the row written, or `None` when that is not known. */
    function Disturbed(row: Option<int>, after: Table): Handle {
      this.(table := after, expired := expired || row == None || row == Some(rowid))
    }
  }

  /** A write by someone else touches the row it names and no other. */
  ghost predicate WritesOnly(row: Option<int>, before: Table, after: Table) {
    row.Some? ==> forall r :: r != row.value ==> (r in before <==> r in after) && (r in before && r in after ==> before[r] == after[r])
  }

  // ----- The handle itself

  /** `Blob`: a paused machine, the length captured at open, and the latch. */
  class Blob {
    var machine: Machine
    var expired: bool
    const length: nat
    const readOnly: bool
    const rowid: int
    const program: seq<Insn>

    ghost predicate Valid()
      reads this
    {
      && IsBlobProgram(program)
      && Parked(machine) && machine.cursor.rowid == rowid
      && View().Sound()
      && (expired ==> machine.cursor.expired)
    }

    ghost function View(): Handle
      reads this
    {
      Handle(machine.working, rowid, length, readOnly, machine.cursor.On? && machine.cursor.expired, expired)
    }

    constructor (program: seq<Insn>, parked: Machine, rowid: int, length: nat, readWrite: bool)
      requires IsBlobProgram(program)
      requires Parked(parked) && parked.cursor == On(rowid, false)
      requires rowid in parked.working && parked.working[rowid].Addressable? && |parked.working[rowid].bytes| == length
      ensures Valid() && View() == Handle(parked.working, rowid, length, !readWrite, false, false)
    {
      machine, expired := parked, false;
      this.length, this.readOnly, this.rowid, this.program := length, !readWrite, rowid, program;
    }

    /** `Blob::step_op`: the value acknowledged, latching expiry on NULL. */
    method StepOp() returns (r: Result<Value, BlobError>)
      requires IsBlobProgram(program)
      modifies this
      ensures var stop := Resume(program, old(machine));
              if stop.Row? then
                && machine == stop.m
                && (if stop.value == Null then r == Err(Expired) && expired else r == Ok(stop.value) && expired == old(expired))
              else r == Err(Internal) && expired == old(expired)
    {
      hide Resume;
      var stop := Resume(program, machine);
      if stop.Row? {
        machine := stop.m;
        if stop.value == Null {
          expired := true;
          r := Err(Expired);
        } else {
          r := Ok(stop.value);
        }
      } else {
        r := Err(Internal);
      }
    }

    /** `Blob::read` refines reading the array. */
    method Read(offset: nat, amount: nat) returns (r: Result<seq<Byte>, BlobError>)
      requires Valid()
      modifies this
      ensures Valid()
      ensures (View(), r) == old(View()).Read(offset, amount)
      ensures machine.committed == old(machine.committed)
    {
      hide Resume;
      if expired {
        return Err(Expired);
      }
      if offset + amount > length {
        return Err(OutOfRange);
      }
      if amount == 0 {
        return Ok([]);
      }
      machine := machine.Bind(1, Integer(1)).Bind(2, Integer(offset)).Bind(3, Integer(amount));
      ReadPath(program, machine, offset, amount);
      var ack := StepOp();
      if ack.Err? {
        return Err(ack.error);
      }
      if ack.value.Bytes? && |ack.value.bytes| == amount {
        return Ok(ack.value.bytes);
      }
      r := Err(Internal);
    }

    /** `Blob::write` refines writing the array in place. */
    method Write(offset: nat, data: seq<Byte>) returns (r: Result<(), BlobError>)
      requires Valid()
      modifies this
      ensures Valid()
      ensures (View(), r) == old(View()).Write(offset, data)
      ensures machine.committed == old(machine.committed)
    {
      hide Resume;
      if expired {
        return Err(Expired);
      }
      if readOnly {
        return Err(ReadOnly);
      }
      if offset + |data| > length {
        return Err(OutOfRange);
      }
      if data == [] {
        return Ok(());
      }
      machine := machine.Bind(1, Integer(2)).Bind(2, Integer(offset)).Bind(4, Bytes(data));
      WritePath(program, machine, offset, data);
      var ack := StepOp();
      if ack.Err? {
        return Err(ack.error);
      }
      if ack.value == Integer(1) {
        return Ok(());
      }
      r := Err(Internal);
    }

    /** A peer writes a row: the table changes and the cursor hears which row it was. */
    method PeerWrite(row: Option<int>, after: Table)
      requires Valid() && WritesOnly(row, machine.working, after)
      modifies this`machine
      ensures Valid() && View() == old(View()).Disturbed(row, after)
      ensures machine.committed == old(machine.committed)
    {
      var hit := row == None || row == Some(rowid);
      machine := machine.(working := after, cursor := On(rowid, machine.cursor.expired || hit));
    }

    /** `Blob::close`: the program halts and commits the table as the handle left it. */
    method Close() returns (committed: Table)
      requires Valid()
      modifies this`machine
      ensures committed == old(View()).table
    {
      hide Resume;
      machine := machine.Bind(1, Integer(0));
      ClosePath(program, machine);
      var stop := Resume(program, machine);
      machine := stop.m;
      committed := machine.committed;
    }
  }

  /** `Connection::blob_open` on a resolved column: the handle, or why the program refused. */
  method OpenBlob(table: Table, rowid: int, readWrite: bool) returns (r: Result<Blob, Fault>)
    ensures rowid !in table ==> r == Err(NoSuchRowid)
    ensures rowid in table && table[rowid].Other? ==> r == Err(NotAddressable)
    ensures rowid in table && table[rowid].Addressable? ==>
              && r.Ok? && fresh(r.value) && r.value.Valid()
              && r.value.View() == Handle(table, rowid, |table[rowid].bytes|, !readWrite, false, false)
  {
    hide Resume;
    var program := BuildBlobProgram(rowid, readWrite);
    ListingIsBlobProgram(rowid, readWrite);
    OpenPath(program, table);
    var stop := Resume(program, Fresh(table));
    if stop.Row? && stop.value.Integer? && stop.value.n >= 0 {
      var blob := new Blob(program, stop.m, rowid, stop.value.n, readWrite);
      r := Ok(blob);
    } else if stop.Failed? {
      r := Err(stop.fault);
    } else {
      r := Err(NoSuchRowid);
    }
  }

  // ----- Runs of a handle

  datatype Op = ReadOp(offset: nat, amount: nat) | WriteOp(offset: nat, data: seq<Byte>) | PeerOp(row: Option<int>, after: Table)

  ghost predicate Possible(h: Handle, op: Op) {
    op.PeerOp? ==> WritesOnly(op.row, h.table, op.after)
  }

  function After(h: Handle, op: Op): Handle
    requires h.Sound()
  {
    match op
    case ReadOp(offset, amount) => h.Read(offset, amount).0
    case WriteOp(offset, data) => h.Write(offset, data).0
    case PeerOp(row, after) => h.Disturbed(row, after)
  }

  lemma AfterIsSound(h: Handle, op: Op)
    requires h.Sound() && Possible(h, op)
    ensures After(h, op).Sound()
  {
  }

  ghost predicate AllPossible(h: Handle, ops: seq<Op>)
    requires h.Sound()
    decreases |ops|
  {
    ops != [] ==> Possible(h, ops[0]) && (AfterIsSound(h, ops[0]); AllPossible(After(h, ops[0]), ops[1..]))
  }

  ghost function Run(h: Handle, ops: seq<Op>): (r: Handle)
    requires h.Sound() && AllPossible(h, ops)
    ensures r.Sound() && r.rowid == h.rowid && r.length == h.length && r.readOnly == h.readOnly
    ensures h.expired ==> r.expired
    ensures h.latched ==> r.latched
    decreases |ops|
  {
    if ops == [] then h
    else
      AfterIsSound(h, ops[0]);
      Run(After(h, ops[0]), ops[1..])
  }

  /** Someone else wrote the handle's own row. */
  predicate Hits(op: Op, rowid: int) {
    op.PeerOp? && (op.row == None || op.row == Some(rowid))
  }

  /** The operations that can still matter: the handle's own are dropped from the first hit on. */
  function Kept(ops: seq<Op>, rowid: int, expired: bool): seq<Op> {
    if ops == [] then []
    else
      var rest := Kept(ops[1..], rowid, expired || Hits(ops[0], rowid));
      if expired && !ops[0].PeerOp? then rest else [ops[0]] + rest
  }

  /** After expiry the handle changes no byte: what close commits is the run without the operations made
      after the first foreign write to the row. */
  lemma {:induction false} CloseCommitsPreExpiryWrites(h: Handle, ops: seq<Op>)
    requires h.Sound() && AllPossible(h, ops)
    ensures AllPossible(h, Kept(ops, h.rowid, h.expired))
    ensures Run(h, ops).table == Run(h, Kept(ops, h.rowid, h.expired)).table
  {
    LatchIsInvisible(h, h, ops);
  }

  /** Two expired handles that differ only in the latch see the same tables. */
  lemma {:induction false} LatchIsInvisible(h: Handle, g: Handle, ops: seq<Op>)
    requires h.Sound() && AllPossible(h, ops)
    requires g == h || (h.expired && g == h.(latched := g.latched))
    ensures g.Sound() && AllPossible(g, Kept(ops, h.rowid, h.expired))
    ensures Run(h, ops).table == Run(g, Kept(ops, h.rowid, h.expired)).table
    decreases |ops|
  {
    if ops != [] {
      var kept := Kept(ops, h.rowid, h.expired);
      AfterIsSound(h, ops[0]);
      var h' := After(h, ops[0]);
      if h.expired && !ops[0].PeerOp? {
        LatchIsInvisible(h', g, ops[1..]);
      } else {
        AfterIsSound(g, ops[0]);
        var g' := After(g, ops[0]);
        LatchIsInvisible(h', g', ops[1..]);
        assert kept[0] == ops[0] && kept[1..] == Kept(ops[1..], h.rowid, h'.expired);
      }
    }
  }

  /** The value the handle's own writes produce, out-of-range ones ignored. */
  function Replayed(value: seq<Byte>, ops: seq<Op>): (r: seq<Byte>)
    ensures |r| == |value|
    decreases |ops|
  {
    if ops == [] then value
    else if ops[0].WriteOp? && ops[0].offset + |ops[0].data| <= |value| then
      Replayed(Splice(value, ops[0].offset, ops[0].data), ops[1..])
    else Replayed(value, ops[1..])
  }

  /** As long as nobody else writes the row, the value is the original with the handle's writes applied in
      order, whatever happens to other rows. */
  lemma {:induction false} LiveHandleIsTheArray(h: Handle, ops: seq<Op>)
    requires h.Sound() && AllPossible(h, ops) && !h.expired && !h.latched
    requires forall op :: op in ops ==> !Hits(op, h.rowid)
    ensures var r := Run(h, ops);
            && !r.expired && !r.latched
            && r.table[h.rowid] == Addressable(if h.readOnly then h.table[h.rowid].bytes else Replayed(h.table[h.rowid].bytes, ops))
    decreases |ops|
  {
    if ops != [] {
      assert ops[0] in ops;
      AfterIsSound(h, ops[0]);
      var bytes := h.table[h.rowid].bytes;
      if ops[0].WriteOp? && ops[0].data == [] && ops[0].offset <= |bytes| {
        assert Splice(bytes, ops[0].offset, []) == bytes;
      }
      LiveHandleIsTheArray(After(h, ops[0]), ops[1..]);
    }
  }

  /** An access that runs the program: not empty, inside the value, and not a write to a read-only handle. */
  predicate Reaches(op: Op, h: Handle) {
    match op
    case ReadOp(offset, amount) => amount > 0 && offset + amount <= h.length
    case WriteOp(offset, data) => !h.readOnly && data != [] && offset + |data| <= h.length
    case PeerOp(_, _) => false
  }

  /** The row has been written by someone else. */
  predicate WasHit(h: Handle, ops: seq<Op>) {
    h.expired || exists i :: 0 <= i < |ops| && Hits(ops[i], h.rowid)
  }

  /** After that, an access has run the program. */
  predicate Noticed(h: Handle, ops: seq<Op>) {
    h.latched || exists j :: 0 <= j < |ops| && Reaches(ops[j], h) && WasHit(h, ops[..j])
  }

  lemma HitStep(h: Handle, g: Handle, ops: seq<Op>)
    requires ops != [] && g.rowid == h.rowid && g.expired == (h.expired || Hits(ops[0], h.rowid))
    ensures WasHit(h, ops) == WasHit(g, ops[1..])
  {
    assert forall i :: 0 <= i < |ops| - 1 ==> ops[1..][i] == ops[i + 1];
    if WasHit(h, ops) && !g.expired {
      var i :| 0 <= i < |ops| && Hits(ops[i], h.rowid);
      assert Hits(ops[1..][i - 1], g.rowid);
    }
  }

  lemma NoticeStep(h: Handle, g: Handle, ops: seq<Op>)
    requires ops != [] && g.rowid == h.rowid && g.length == h.length && g.readOnly == h.readOnly
    requires g.expired == (h.expired || Hits(ops[0], h.rowid))
    requires g.latched == (h.latched || (h.expired && Reaches(ops[0], h)))
    ensures Noticed(h, ops) == Noticed(g, ops[1..])
  {
    hide WasHit;
    var rest := ops[1..];
    forall j | 0 <= j < |rest|
      ensures (Reaches(rest[j], g) && WasHit(g, rest[..j])) == (Reaches(ops[j + 1], h) && WasHit(h, ops[..j + 1]))
    {
      assert rest[..j] == ops[..j + 1][1..];
      HitStep(h, g, ops[..j + 1]);
    }
    FirstHit(h, ops);
    if Noticed(h, ops) && !h.latched {
      var j :| 0 <= j < |ops| && Reaches(ops[j], h) && WasHit(h, ops[..j]);
      if j > 0 {
        assert Reaches(rest[j - 1], g) && WasHit(g, rest[..j - 1]);
      }
    }
    if Noticed(g, rest) && !g.latched {
      var j :| 0 <= j < |rest| && Reaches(rest[j], g) && WasHit(g, rest[..j]);
      assert Reaches(ops[j + 1], h) && WasHit(h, ops[..j + 1]);
    }
  }

  lemma FirstHit(h: Handle, ops: seq<Op>)
    requires ops != []
    ensures WasHit(h, ops[..0]) == h.expired
  {
  }

  /** What a run leaves of a handle, in terms of the calls made: it is expired exactly if the row was hit, and
      latched exactly if some access ran the program after that. */
  lemma {:induction false} LatchedExactlyWhenNoticed(h: Handle, ops: seq<Op>)
    requires h.Sound() && AllPossible(h, ops)
    ensures Run(h, ops).expired == WasHit(h, ops) && Run(h, ops).latched == Noticed(h, ops)
    decreases |ops|
  {
    if ops != [] {
      var g := After(h, ops[0]);
      AfterIsSound(h, ops[0]);
      HitStep(h, g, ops);
      NoticeStep(h, g, ops);
      LatchedExactlyWhenNoticed(g, ops[1..]);
    }
  }

  /** When an access succeeds after any run. Expiry does not fail every access: an empty one inside the value still
      succeeds, until some access that was not empty has run into the expiry; every other one fails from the hit on.
      None of them changes the table any more. */
  lemma ExpiredAccess(h: Handle, ops: seq<Op>, offset: nat, amount: nat, data: seq<Byte>)
    requires h.Sound() && AllPossible(h, ops)
    ensures var r := Run(h, ops);
            && (r.Read(offset, amount).1.Ok? <==>
                offset + amount <= h.length && !Noticed(h, ops) && (amount == 0 || !WasHit(h, ops)))
            && (r.Write(offset, data).1.Ok? <==>
                !h.readOnly && offset + |data| <= h.length && !Noticed(h, ops) && (data == [] || !WasHit(h, ops)))
            && (WasHit(h, ops) ==> r.Read(offset, amount).0.table == r.Write(offset, data).0.table == r.table)
  {
    hide WasHit, Noticed;
    LatchedExactlyWhenNoticed(h, ops);
  }

  /** A read that succeeds returns the bytes the handle's own writes produced, whatever peers did. */
  lemma ReadsItsOwnWrites(h: Handle, ops: seq<Op>, offset: nat, amount: nat)
    requires h.Sound() && AllPossible(h, ops) && !h.expired && !h.latched
    requires Run(h, ops).Read(offset, amount).1.Ok?
    ensures var value := if h.readOnly then h.table[h.rowid].bytes else Replayed(h.table[h.rowid].bytes, ops);
            && offset + amount <= |value|
            && Run(h, ops).Read(offset, amount).1.value == value[offset..offset + amount]
  {
    LatchedExactlyWhenNoticed(h, ops);
    if amount > 0 {
      assert forall op :: op in ops ==> !Hits(op, h.rowid);
      LiveHandleIsTheArray(h, ops);
    }
  }

  /** A concrete handle whose row has been replaced and which still answers an empty read. */
  lemma EmptyReadAfterExpiry()
    ensures var h := Handle(map[1 := Addressable([7])], 1, 1, true, false, false).Disturbed(Some(1), map[1 := Addressable([])]);
            h.Sound() && h.expired && h.Read(0, 0).1 == Ok([])
  {
  }

  /** The first non-empty access after expiry latches it, and from then on every access of every run fails. */
  lemma LatchIsPermanent(h: Handle, ops: seq<Op>, offset: nat, amount: nat, data: seq<Byte>)
    requires h.Sound() && AllPossible(h, ops) && h.latched
    ensures Run(h, ops).Read(offset, amount).1 == Err(Expired) && Run(h, ops).Write(offset, data).1 == Err(Expired)
  {
  }

  // ----- The object over whole runs

  datatype Answer = ReadAnswer(read: Result<seq<Byte>, BlobError>) | WriteAnswer(written: Result<(), BlobError>) | NoAnswer

  function AnswerTo(h: Handle, op: Op): Answer
    requires h.Sound()
  {
    match op
    case ReadOp(offset, amount) => ReadAnswer(h.Read(offset, amount).1)
    case WriteOp(offset, data) => WriteAnswer(h.Write(offset, data).1)
    case PeerOp(_, _) => NoAnswer
  }

  ghost function Answers(h: Handle, ops: seq<Op>): seq<Answer>
    requires h.Sound() && AllPossible(h, ops)
    decreases |ops|
  {
    if ops == [] then []
    else
      AfterIsSound(h, ops[0]);
      [AnswerTo(h, ops[0])] + Answers(After(h, ops[0]), ops[1..])
  }

  method Apply(b: Blob, op: Op) returns (answer: Answer)
    requires b.Valid() && Possible(b.View(), op)
    modifies b
    ensures b.Valid() && b.View() == After(old(b.View()), op)
    ensures answer == AnswerTo(old(b.View()), op)
  {
    match op
    case ReadOp(offset, amount) =>
      var r := b.Read(offset, amount);
      answer := ReadAnswer(r);
    case WriteOp(offset, data) =>
      var r := b.Write(offset, data);
      answer := WriteAnswer(r);
    case PeerOp(row, after) =>
      b.PeerWrite(row, after);
      answer := NoAnswer;
  }

  /** Driving the object through any operations gives, answer by answer, what the array gives. */
  method Drive(b: Blob, ops: seq<Op>) returns (answers: seq<Answer>)
    requires b.Valid() && AllPossible(b.View(), ops)
    modifies b
    ensures b.Valid() && b.View() == Run(old(b.View()), ops)
    ensures answers == Answers(old(b.View()), ops)
  {
    answers := [];
    var rest := ops;
    while rest != []
      invariant b.Valid() && AllPossible(b.View(), rest)
      invariant Run(b.View(), rest) == Run(old(b.View()), ops)
      invariant answers + Answers(b.View(), rest) == Answers(old(b.View()), ops)
      decreases |rest|
    {
      ghost var h := b.View();
      var answer := Apply(b, rest[0]);
      RunUnfolds(h, rest);
      assert answers + ([answer] + Answers(b.View(), rest[1..])) == answers + [answer] + Answers(b.View(), rest[1..]);
      answers := answers + [answer];
      rest := rest[1..];
    }
  }

  lemma RunUnfolds(h: Handle, ops: seq<Op>)
    requires h.Sound() && AllPossible(h, ops) && ops != []
    ensures After(h, ops[0]).Sound() && AllPossible(After(h, ops[0]), ops[1..])
    ensures Run(h, ops) == Run(After(h, ops[0]), ops[1..])
    ensures Answers(h, ops) == [AnswerTo(h, ops[0])] + Answers(After(h, ops[0]), ops[1..])
  {
    AfterIsSound(h, ops[0]);
  }

  /** A whole life of a handle on an addressable value, from open to close. */
  method Session(table: Table, rowid: int, readWrite: bool, ops: seq<Op>)
    returns (answers: seq<Answer>, committed: Table)
    requires rowid in table && table[rowid].Addressable?
    requires AllPossible(Handle(table, rowid, |table[rowid].bytes|, !readWrite, false, false), ops)
    ensures var h := Handle(table, rowid, |table[rowid].bytes|, !readWrite, false, false);
            answers == Answers(h, ops) && committed == Run(h, ops).table
  {
    var handle := OpenBlob(table, rowid, readWrite);
    answers := Drive(handle.value, ops);
    committed := handle.value.Close();
  }
}
