/** The bytecode behind an incremental blob handle (`build_blob_program` in `core/incremental_blob.rs`)
    and a small machine for the opcodes it uses (`core/vdbe/execute.rs`). */
module BlobProgram {
  import opened Common

  datatype Value = Null | Integer(n: int) | Bytes(bytes: seq<Byte>)

  /** A jump target is a label until the program is built. */
  datatype Target = Label(n: nat) | Offset(pc: nat)

  datatype Insn =
    | Init(target: Target)
    | Transaction(write: bool)
    | OpenRead
    | OpenWrite
    | LoadInteger(value: int, dest: nat)
    | SeekRowid(src: nat, target: Target)
    | BlobLen(dest: nat)
    | ResultRow(reg: nat)
    | Variable(index: nat, dest: nat)
    | Eq(lhs: nat, rhs: nat, target: Target)
    | BlobRead(offset: nat, amount: nat, dest: nat)
    | BlobWrite(offset: nat, src: nat, dest: nat)
    | Goto(target: Target)
    | Halt(errCode: nat)

  // ----- Emission

  /** `ProgramBuilder`: instructions, label anchors and registers handed out so far. */
  class Builder {
    var insns: seq<Insn>
    var anchors: seq<Option<nat>>
    var nextRegister: nat

    constructor ()
      ensures insns == [] && anchors == [] && nextRegister == 1
    {
      insns, anchors, nextRegister := [], [], 1;
    }

    method Emit(insn: Insn)
      modifies this`insns
      ensures insns == old(insns) + [insn]
    {
      insns := insns + [insn];
    }

    method AllocateLabel() returns (t: Target)
      modifies this`anchors
      ensures t == Label(old(|anchors|)) && anchors == old(anchors) + [None]
    {
      t := Label(|anchors|);
      anchors := anchors + [None];
    }

    method AllocRegister() returns (reg: nat)
      modifies this`nextRegister
      ensures reg == old(nextRegister) && nextRegister == reg + 1
    {
      reg := nextRegister;
      nextRegister := nextRegister + 1;
    }

    /** Anchors a label at the last instruction emitted, so that it resolves to whatever follows. */
    method PreassignLabelToNextInsn(t: Target)
      requires t.Label? && t.n < |anchors|
      modifies this`anchors
      ensures anchors == old(anchors)[t.n := Some(if |insns| == 0 then 0 else |insns| - 1)]
    {
      anchors := anchors[t.n := Some(if |insns| == 0 then 0 else |insns| - 1)];
    }
  }

  function ResolveTarget(anchors: seq<Option<nat>>, t: Target): Target {
    if t.Label? && t.n < |anchors| && anchors[t.n].Some? then Offset(anchors[t.n].value + 1) else t
  }

  function ResolveInsn(anchors: seq<Option<nat>>, insn: Insn): Insn {
    match insn
    case Init(t) => Init(ResolveTarget(anchors, t))
    case SeekRowid(src, t) => SeekRowid(src, ResolveTarget(anchors, t))
    case Eq(lhs, rhs, t) => Eq(lhs, rhs, ResolveTarget(anchors, t))
    case Goto(t) => Goto(ResolveTarget(anchors, t))
    case _ => insn
  }

  /** `resolve_labels`. */
  function Resolve(anchors: seq<Option<nat>>, insns: seq<Insn>): (r: seq<Insn>)
    ensures |r| == |insns| && forall i :: 0 <= i < |insns| ==> r[i] == ResolveInsn(anchors, insns[i])
  {
    seq(|insns|, i requires 0 <= i < |insns| => ResolveInsn(anchors, insns[i]))
  }

  /** The program a handle runs, with its jumps resolved. Bound parameters: 1 is the operation (0 close,
      1 read, 2 write), 2 the offset, 3 the amount to read and 4 the bytes to write. */
  function Listing(rowid: int, readWrite: bool): seq<Insn> {
    OpenCode(rowid, readWrite) + DispatchCode() + ReadCode() + WriteCode() + EndCode(readWrite)
  }

  /** Addresses 0 to 5: find the row and report the value's length. */
  function OpenCode(rowid: int, readWrite: bool): seq<Insn> {
    [ Init(Offset(23)), if readWrite then OpenWrite else OpenRead, LoadInteger(rowid, 1), SeekRowid(1, Offset(21)),
      BlobLen(2), ResultRow(2) ]
  }

  /** Addresses 6 to 11: the loop head, which branches on the bound operation. */
  function DispatchCode(): seq<Insn> {
    [ Variable(1, 3), LoadInteger(0, 4), Eq(3, 4, Offset(20)), Variable(2, 5), LoadInteger(2, 6), Eq(3, 6, Offset(16)) ]
  }

  /** Addresses 12 to 15. */
  function ReadCode(): seq<Insn> {
    [ Variable(3, 7), BlobRead(5, 7, 8), ResultRow(8), Goto(Offset(6)) ]
  }

  /** Addresses 16 to 19. */
  function WriteCode(): seq<Insn> {
    [ Variable(4, 9), BlobWrite(5, 9, 10), ResultRow(10), Goto(Offset(6)) ]
  }

  /** Addresses 20 to 24: leave the loop, report a missing row, halt, and the epilogue `Init` jumps to. */
  function EndCode(readWrite: bool): seq<Insn> {
    [ Goto(Offset(22)), Halt(1), Halt(0), Transaction(readWrite), Goto(Offset(1)) ]
  }

  // The unresolved program, in the order it is emitted. Labels: 0 init, 1 not found, 2 loop, 3 write,
  // 4 done, 5 end.

  function OpenPart(rowid: int, readWrite: bool): seq<Insn> {
    [Init(Label(0)), if readWrite then OpenWrite else OpenRead, LoadInteger(rowid, 1), SeekRowid(1, Label(1)), BlobLen(2), ResultRow(2)]
  }

  function DispatchPart(): seq<Insn> {
    [Variable(1, 3), LoadInteger(0, 4), Eq(3, 4, Label(4)), Variable(2, 5), LoadInteger(2, 6), Eq(3, 6, Label(3))]
  }

  function ReadPart(): seq<Insn> {
    [Variable(3, 7), BlobRead(5, 7, 8), ResultRow(8), Goto(Label(2))]
  }

  function WritePart(): seq<Insn> {
    [Variable(4, 9), BlobWrite(5, 9, 10), ResultRow(10), Goto(Label(2))]
  }

  function EndPart(readWrite: bool): seq<Insn> {
    [Goto(Label(5)), Halt(1), Halt(0), Transaction(readWrite), Goto(Offset(1))]
  }

  method EmitOpen(b: Builder, rowid: int, readWrite: bool) returns (lInit: Target, lNotFound: Target, startOffset: Target)
    requires b.insns == [] && b.anchors == [] && b.nextRegister == 1
    modifies b
    ensures b.insns == OpenPart(rowid, readWrite) && b.anchors == [None, None] && b.nextRegister == 3
    ensures lInit == Label(0) && lNotFound == Label(1) && startOffset == Offset(1)
  {
    lInit := b.AllocateLabel();
    b.Emit(Init(lInit));
    startOffset := Offset(|b.insns|);
    b.Emit(if readWrite then OpenWrite else OpenRead);
    var rRowid := b.AllocRegister();
    b.Emit(LoadInteger(rowid, rRowid));
    lNotFound := b.AllocateLabel();
    b.Emit(SeekRowid(rRowid, lNotFound));
    var rReady := b.AllocRegister();
    b.Emit(BlobLen(rReady));
    b.Emit(ResultRow(rReady));
  }

  method EmitDispatch(b: Builder, lWrite: Target, lDone: Target) returns (rOff: nat)
    requires lWrite == Label(3) && lDone == Label(4) && b.nextRegister == 3
    modifies b`insns, b`nextRegister
    ensures b.insns == old(b.insns) + DispatchPart() && b.nextRegister == 7 && rOff == 5
  {
    var rOp := b.AllocRegister();
    b.Emit(Variable(1, rOp));
    var rZero := b.AllocRegister();
    b.Emit(LoadInteger(0, rZero));
    b.Emit(Eq(rOp, rZero, lDone));
    rOff := b.AllocRegister();
    b.Emit(Variable(2, rOff));
    var rTwo := b.AllocRegister();
    b.Emit(LoadInteger(2, rTwo));
    b.Emit(Eq(rOp, rTwo, lWrite));
  }

  method EmitRead(b: Builder, lLoop: Target, rOff: nat)
    requires lLoop == Label(2) && rOff == 5 && b.nextRegister == 7
    modifies b`insns, b`nextRegister
    ensures b.insns == old(b.insns) + ReadPart() && b.nextRegister == 9
  {
    var rAmt := b.AllocRegister();
    b.Emit(Variable(3, rAmt));
    var rData := b.AllocRegister();
    b.Emit(BlobRead(rOff, rAmt, rData));
    b.Emit(ResultRow(rData));
    b.Emit(Goto(lLoop));
  }

  method EmitWrite(b: Builder, lLoop: Target, rOff: nat)
    requires lLoop == Label(2) && rOff == 5 && b.nextRegister == 9
    modifies b`insns, b`nextRegister
    ensures b.insns == old(b.insns) + WritePart()
  {
    var rSrc := b.AllocRegister();
    b.Emit(Variable(4, rSrc));
    var rAck := b.AllocRegister();
    b.Emit(BlobWrite(rOff, rSrc, rAck));
    b.Emit(ResultRow(rAck));
    b.Emit(Goto(lLoop));
  }

  method EmitEnd(b: Builder, lInit: Target, lNotFound: Target, lEnd: Target, startOffset: Target, readWrite: bool)
    requires lInit == Label(0) && lNotFound == Label(1) && lEnd == Label(5) && startOffset == Offset(1)
    requires |b.insns| == 20 && |b.anchors| == 6
    modifies b`insns, b`anchors
    ensures b.insns == old(b.insns) + EndPart(readWrite)
    ensures b.anchors == old(b.anchors)[1 := Some(20)][5 := Some(21)][0 := Some(22)]
  {
    b.Emit(Goto(lEnd));
    b.PreassignLabelToNextInsn(lNotFound);
    b.Emit(Halt(1));
    b.PreassignLabelToNextInsn(lEnd);
    b.Emit(Halt(0));
    b.PreassignLabelToNextInsn(lInit);
    b.Emit(Transaction(readWrite));
    b.Emit(Goto(startOffset));
  }

  lemma ResolveConcat(anchors: seq<Option<nat>>, a: seq<Insn>, b: seq<Insn>)
    ensures Resolve(anchors, a + b) == Resolve(anchors, a) + Resolve(anchors, b)
  {
  }

  lemma ResolvedProgram(rowid: int, readWrite: bool)
    ensures Resolve([Some(22), Some(20), Some(5), Some(15), Some(19), Some(21)],
                    OpenPart(rowid, readWrite) + DispatchPart() + ReadPart() + WritePart() + EndPart(readWrite))
            == Listing(rowid, readWrite)
  {
    var anchors := [Some(22), Some(20), Some(5), Some(15), Some(19), Some(21)];
    var p1, p2, p3, p4, p5 := OpenPart(rowid, readWrite), DispatchPart(), ReadPart(), WritePart(), EndPart(readWrite);
    ResolveConcat(anchors, p1 + p2 + p3 + p4, p5);
    ResolveConcat(anchors, p1 + p2 + p3, p4);
    ResolveConcat(anchors, p1 + p2, p3);
    ResolveConcat(anchors, p1, p2);
    assert Resolve(anchors, p1) == OpenCode(rowid, readWrite);
    assert Resolve(anchors, p2) == DispatchCode();
    assert Resolve(anchors, p3) == ReadCode();
    assert Resolve(anchors, p4) == WriteCode();
    assert Resolve(anchors, p5) == EndCode(readWrite);
  }

  /** `build_blob_program` emits exactly the listing. */
  method BuildBlobProgram(rowid: int, readWrite: bool) returns (program: seq<Insn>)
    ensures program == Listing(rowid, readWrite)
  {
    hide Listing, OpenPart, DispatchPart, ReadPart, WritePart, EndPart;
    var b := new Builder();
    PartLengths(rowid, readWrite);
    var lInit, lNotFound, startOffset := EmitOpen(b, rowid, readWrite);
    var lLoop := b.AllocateLabel();
    var lWrite := b.AllocateLabel();
    var lDone := b.AllocateLabel();
    var lEnd := b.AllocateLabel();
    b.PreassignLabelToNextInsn(lLoop);
    var rOff := EmitDispatch(b, lWrite, lDone);
    EmitRead(b, lLoop, rOff);
    b.PreassignLabelToNextInsn(lWrite);
    EmitWrite(b, lLoop, rOff);
    b.PreassignLabelToNextInsn(lDone);
    EmitEnd(b, lInit, lNotFound, lEnd, startOffset, readWrite);
    assert b.anchors == [Some(22), Some(20), Some(5), Some(15), Some(19), Some(21)];
    ResolvedProgram(rowid, readWrite);
    program := Resolve(b.anchors, b.insns);
  }

  lemma PartLengths(rowid: int, readWrite: bool)
    ensures |OpenPart(rowid, readWrite)| == 6 && |DispatchPart()| == 6 && |ReadPart()| == 4
    ensures |WritePart()| == 4 && |EndPart(readWrite)| == 5
  {
  }
}
