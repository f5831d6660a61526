/** The streaming statement splitter that applies a dump to a connection (`cli/input.rs`). */
module ApplyWriter {
  import opened Common

  type Bytes = seq<Byte>

  const SEMICOLON: Byte := 59
  const NEWLINE: Byte := 10
  const RETURN: Byte := 13

  /** The bytes from a semicolon through the line end after it, 0 where no statement ends. */
  function DrainAt(buf: Bytes, i: nat): (n: nat)
    requires i < |buf|
    ensures i + n <= |buf|
  {
    if buf[i] != SEMICOLON then 0
    else if i + 1 < |buf| && buf[i + 1] == NEWLINE then 2
    else if i + 2 < |buf| && buf[i + 1] == RETURN && buf[i + 2] == NEWLINE then 3
    else 0
  }

  /** Where the first statement from `i` on ends. */
  function EndFrom(buf: Bytes, i: nat): (r: Option<nat>)
    requires i <= |buf|
    ensures r.Some? ==> i <= r.value < |buf| && DrainAt(buf, r.value) > 0
    ensures forall k :: i <= k < (if r.Some? then r.value else |buf|) ==> DrainAt(buf, k) == 0
    decreases |buf| - i
  {
    if i == |buf| then None else if DrainAt(buf, i) > 0 then Some(i) else EndFrom(buf, i + 1)
  }

  /** A statement with its semicolon, and the line end that terminated it. */
  datatype Piece = Piece(statement: Bytes, terminator: Bytes)

  datatype Division = Division(pieces: seq<Piece>, rest: Bytes)

  /** What is taken off an input whose first statement ends at `i`, and what is left. */
  function First(input: Bytes, i: nat): Piece
    requires i < |input| && DrainAt(input, i) > 0
  {
    Piece(input[..i + 1], input[i + 1..i + DrainAt(input, i)])
  }

  function After(input: Bytes, i: nat): Bytes
    requires i < |input|
  {
    input[i + DrainAt(input, i)..]
  }

  /** The statements of an input in one go. */
  function Divide(input: Bytes): Division
    decreases |input|
  {
    match EndFrom(input, 0)
    case None => Division([], input)
    case Some(i) =>
      var tail := Divide(After(input, i));
      Division([First(input, i)] + tail.pieces, tail.rest)
  }

  function Statements(pieces: seq<Piece>): seq<Bytes> {
    if pieces == [] then [] else [pieces[0].statement] + Statements(pieces[1..])
  }

  function Joined(pieces: seq<Piece>): Bytes {
    if pieces == [] then [] else pieces[0].statement + pieces[0].terminator + Joined(pieces[1..])
  }

  // ----- Executing

  /** Whether the connection accepts the last of the statements, having executed the others. */
  type Target = seq<Bytes> -> bool

  datatype Writer = Writer(buf: Bytes, executed: seq<Bytes>)

  /** Complete statements are drained and executed until one is refused. */
  function Flush(accepts: Target, w: Writer): (Writer, bool)
    decreases |w.buf|
  {
    match EndFrom(w.buf, 0)
    case None => (w, true)
    case Some(i) =>
      var executed := w.executed + [First(w.buf, i).statement];
      if accepts(executed) then Flush(accepts, Writer(After(w.buf, i), executed))
      else (w.(buf := After(w.buf, i)), false)
  }

  lemma FlushUnfolds(accepts: Target, w: Writer)
    ensures match EndFrom(w.buf, 0)
            case None => Flush(accepts, w) == (w, true)
            case Some(i) =>
              && DrainAt(w.buf, i) > 0
              && var executed := w.executed + [w.buf[..i + 1]];
              var rest := w.buf[i + DrainAt(w.buf, i)..];
              Flush(accepts, w) ==
              if accepts(executed) then Flush(accepts, Writer(rest, executed)) else (Writer(rest, w.executed), false)
  {
  }

  function Write(accepts: Target, w: Writer, data: Bytes): (Writer, bool) {
    Flush(accepts, w.(buf := w.buf + data))
  }

  /** Writes one chunk after another, stopping at the first error. */
  function WriteAll(accepts: Target, chunks: seq<Bytes>): (Writer, bool) {
    if chunks == [] then (Writer([], []), true)
    else
      var (w, ok) := WriteAll(accepts, chunks[..|chunks| - 1]);
      if ok then Write(accepts, w, chunks[|chunks| - 1]) else (w, false)
  }

  predicate Blank(b: Byte) {
    b in {32, 9, RETURN, NEWLINE}
  }

  /** The statement a finished input may still end with. */
  function LastSemicolon(buf: Bytes): (r: Option<nat>)
    ensures r.Some? ==> r.value < |buf| && buf[r.value] == SEMICOLON
    ensures forall k :: (if r.Some? then r.value + 1 else 0) <= k < |buf| ==> buf[k] != SEMICOLON
  {
    if buf == [] then None
    else if buf[|buf| - 1] == SEMICOLON then Some(|buf| - 1)
    else LastSemicolon(buf[..|buf| - 1])
  }

  function Finish(accepts: Target, w: Writer): (Writer, bool) {
    match LastSemicolon(w.buf)
    case None => (w, true)
    case Some(i) =>
      if exists k :: i < k < |w.buf| && !Blank(w.buf[k]) then (w, true)
      else
        var executed := w.executed + [w.buf[..i + 1]];
        if accepts(executed) then (Writer([], executed), true) else (w.(buf := []), false)
  }

  class StatementWriter {
    const accepts: Target
    var buf: Bytes
    var executed: seq<Bytes>

    function View(): Writer
      reads this
    {
      Writer(buf, executed)
    }

    constructor (accepts: Target)
      ensures this.accepts == accepts && View() == Writer([], [])
    {
      this.accepts, buf, executed := accepts, [], [];
    }

    static method FindStmtEnd(buf: Bytes) returns (r: Option<(nat, nat)>)
      ensures r == match EndFrom(buf, 0) case None => None case Some(i) => Some((i, DrainAt(buf, i)))
    {
      var i := 0;
      while i < |buf|
        invariant 0 <= i <= |buf| && EndFrom(buf, 0) == EndFrom(buf, i)
      {
        if buf[i] == SEMICOLON {
          if i + 1 < |buf| && buf[i + 1] == NEWLINE {
            return Some((i, 2));
          }
          if i + 2 < |buf| && buf[i + 1] == RETURN && buf[i + 2] == NEWLINE {
            return Some((i, 3));
          }
        }
        i := i + 1;
      }
      return None;
    }

    method Execute(statement: Bytes) returns (ok: bool)
      modifies `executed
      ensures ok == accepts(old(executed) + [statement])
      ensures executed == if ok then old(executed) + [statement] else old(executed)
    {
      ok := accepts(executed + [statement]);
      if ok {
        executed := executed + [statement];
      }
    }

    method FlushCompleteStatements() returns (ok: bool)
      modifies this
      ensures (View(), ok) == Flush(accepts, old(View()))
    {
      hide Flush, EndFrom, DrainAt;
      var end := FindStmtEnd(buf);
      while end.Some?
        invariant end == match EndFrom(buf, 0) case None => None case Some(i) => Some((i, DrainAt(buf, i)))
        invariant Flush(accepts, View()) == Flush(accepts, old(View()))
        decreases |buf|
      {
        var (i, drain) := end.value;
        FlushUnfolds(accepts, View());
        var statement := buf[..i + 1];
        buf := buf[i + drain..];
        ok := Execute(statement);
        if !ok {
          return;
        }
        end := FindStmtEnd(buf);
      }
      FlushUnfolds(accepts, View());
      ok := true;
    }

    method WriteData(data: Bytes) returns (ok: bool)
      modifies this
      ensures (View(), ok) == Write(accepts, old(View()), data)
    {
      buf := buf + data;
      ok := FlushCompleteStatements();
    }

    method FinishInput() returns (ok: bool)
      modifies this
      ensures (View(), ok) == Finish(accepts, old(View()))
    {
      var last := LastSemicolon(buf);
      ok := true;
      if last.Some? {
        var i := last.value + 1;
        while i < |buf| && Blank(buf[i])
          invariant last.value < i <= |buf| && forall k :: last.value < k < i ==> Blank(buf[k])
        {
          i := i + 1;
        }
        if i == |buf| {
          var statement := buf[..last.value + 1];
          buf := [];
          ok := Execute(statement);
        }
      }
    }
  }

  // ----- The division of an input

  predicate HasEnd(buf: Bytes) {
    exists i :: 0 <= i < |buf| && DrainAt(buf, i) > 0
  }

  predicate IsPiece(p: Piece) {
    && p.statement != [] && p.statement[|p.statement| - 1] == SEMICOLON
    && p.terminator in {[NEWLINE], [RETURN, NEWLINE]}
    && forall i :: 0 <= i < |p.statement| - 1 ==> DrainAt(p.statement + p.terminator, i) == 0
  }

  /** Nothing is lost and nothing is added: the statements with their line ends and what remains are the input, each
      statement ends at the first place it can, and what remains holds no complete statement. */
  lemma {:induction false} DivisionIsExact(input: Bytes)
    ensures Joined(Divide(input).pieces) + Divide(input).rest == input
    ensures forall p :: p in Divide(input).pieces ==> IsPiece(p)
    ensures !HasEnd(Divide(input).rest)
    decreases |input|
  {
    hide Joined, IsPiece, First, After;
    match EndFrom(input, 0)
    case None => JoinedOf([]);
    case Some(i) =>
      var p, tail := First(input, i), Divide(After(input, i));
      FirstIsPiece(input, i);
      DivisionIsExact(After(input, i));
      JoinedOf([p] + tail.pieces);
      assert ([p] + tail.pieces)[1..] == tail.pieces;
      Reassociate(p.statement + p.terminator, Joined(tail.pieces), tail.rest);
  }

  lemma Reassociate(a: Bytes, b: Bytes, c: Bytes)
    ensures a + b + c == a + (b + c)
  {
  }

  lemma JoinedOf(pieces: seq<Piece>)
    ensures Joined(pieces) ==
            if pieces == [] then [] else pieces[0].statement + pieces[0].terminator + Joined(pieces[1..])
  {
  }

  lemma FirstIsPiece(input: Bytes, i: nat)
    requires EndFrom(input, 0) == Some(i)
    ensures IsPiece(First(input, i)) && |After(input, i)| < |input|
    ensures First(input, i).statement + First(input, i).terminator + After(input, i) == input
  {
    var drain := i + DrainAt(input, i);
    var p := First(input, i);
    assert p.statement + p.terminator == input[..drain];
    if DrainAt(input, i) == 2 {
      assert p.terminator == [NEWLINE];
    } else {
      assert p.terminator == [RETURN, NEWLINE];
    }
    forall k | 0 <= k < i ensures DrainAt(input[..drain], k) == 0 {
      assert DrainAt(input, k) == 0;
    }
  }

  /** A piece in front of anything is what the splitter takes off first. */
  lemma PieceComesFirst(p: Piece, more: Bytes)
    requires IsPiece(p)
    ensures EndFrom(p.statement + p.terminator + more, 0) == Some(|p.statement| - 1)
    ensures DrainAt(p.statement + p.terminator + more, |p.statement| - 1) == 1 + |p.terminator|
  {
    var whole, input := p.statement + p.terminator, p.statement + p.terminator + more;
    var n := |p.statement| - 1;
    assert input[n] == SEMICOLON;
    assert p.terminator == [NEWLINE] ==> input[n + 1] == NEWLINE;
    assert p.terminator == [RETURN, NEWLINE] ==> input[n + 1] == RETURN && input[n + 2] == NEWLINE;
    forall k | 0 <= k < n ensures DrainAt(input, k) == 0 {
      assert DrainAt(whole, k) == 0;
      assert input[k] == whole[k] && input[k + 1] == whole[k + 1];
      assert k + 2 < |whole| && input[k + 2] == whole[k + 2];
    }
    FirstEndIs(input, n);
  }

  lemma FirstEndIs(buf: Bytes, n: nat)
    requires n < |buf| && DrainAt(buf, n) > 0 && forall k :: 0 <= k < n ==> DrainAt(buf, k) == 0
    ensures EndFrom(buf, 0) == Some(n)
  {
  }

  /** The division is the only one of its kind. */
  lemma {:induction false} DivisionIsUnique(pieces: seq<Piece>, rest: Bytes)
    requires forall p :: p in pieces ==> IsPiece(p)
    requires !HasEnd(rest)
    ensures Divide(Joined(pieces) + rest) == Division(pieces, rest)
  {
    hide IsPiece, DrainAt, First, After;
    if pieces == [] {
      assert Joined(pieces) + rest == rest;
      assert EndFrom(rest, 0).None?;
    } else {
      var p := pieces[0];
      var tail := Joined(pieces[1..]) + rest;
      DivisionIsUnique(pieces[1..], rest);
      var input := Joined(pieces) + rest;
      assert p in pieces;
      Reassociate(p.statement + p.terminator, Joined(pieces[1..]), rest);
      PieceComesFirst(p, tail);
      TakesOffPiece(p, tail);
      assert pieces == [p] + pieces[1..];
    }
  }

  lemma TakesOffPiece(p: Piece, more: Bytes)
    requires IsPiece(p)
    requires DrainAt(p.statement + p.terminator + more, |p.statement| - 1) == 1 + |p.terminator|
    ensures First(p.statement + p.terminator + more, |p.statement| - 1) == p
    ensures After(p.statement + p.terminator + more, |p.statement| - 1) == more
  {
  }

  // ----- Chunks

  lemma {:induction false} JoinedOfBoth(a: seq<Piece>, b: seq<Piece>)
    ensures Joined(a + b) == Joined(a) + Joined(b)
  {
    if a == [] {
      assert a + b == b;
    } else {
      JoinedOfBoth(a[1..], b);
      assert (a + b)[1..] == a[1..] + b && (a + b)[0] == a[0];
      Reassociate(a[0].statement + a[0].terminator, Joined(a[1..]), Joined(b));
    }
  }

  lemma {:induction false} StatementsOfBoth(a: seq<Piece>, b: seq<Piece>)
    ensures Statements(a + b) == Statements(a) + Statements(b)
  {
    if a == [] {
      assert a + b == b;
    } else {
      StatementsOfBoth(a[1..], b);
      assert (a + b)[1..] == a[1..] + b && (a + b)[0] == a[0];
    }
  }

  /** Dividing what remains together with what follows continues the division. */
  lemma DivisionContinues(input: Bytes, more: Bytes)
    ensures var first := Divide(input);
            var second := Divide(first.rest + more);
            Divide(input + more) == Division(first.pieces + second.pieces, second.rest)
  {
    hide Divide, Joined, IsPiece, HasEnd;
    var first := Divide(input);
    var second := Divide(first.rest + more);
    DivisionIsExact(input);
    DivisionIsExact(first.rest + more);
    JoinedOfBoth(first.pieces, second.pieces);
    assert input + more == Joined(first.pieces) + (first.rest + more);
    assert input + more == Joined(first.pieces) + Joined(second.pieces) + second.rest;
    DivisionIsUnique(first.pieces + second.pieces, second.rest);
  }

  /** Runs statements until one is refused. */
  function Execute(accepts: Target, executed: seq<Bytes>, statements: seq<Bytes>): (seq<Bytes>, bool)
    decreases |statements|
  {
    if statements == [] then (executed, true)
    else if !accepts(executed + [statements[0]]) then (executed, false)
    else Execute(accepts, executed + [statements[0]], statements[1..])
  }

  lemma {:induction false} FlushExecutes(accepts: Target, w: Writer)
    ensures var (w', ok) := Flush(accepts, w);
            && (w'.executed, ok) == Execute(accepts, w.executed, Statements(Divide(w.buf).pieces))
            && (ok ==> w'.buf == Divide(w.buf).rest)
    decreases |w.buf|
  {
    hide First, After, IsPiece;
    match EndFrom(w.buf, 0)
    case None =>
    case Some(i) =>
      var p, tail := First(w.buf, i), Divide(After(w.buf, i));
      FirstIsPiece(w.buf, i);
      FlushExecutes(accepts, Writer(After(w.buf, i), w.executed + [p.statement]));
      var statements := Statements([p] + tail.pieces);
      assert ([p] + tail.pieces)[1..] == tail.pieces;
      assert statements == [p.statement] + Statements(tail.pieces);
      assert statements[1..] == Statements(tail.pieces);
  }

  lemma {:induction false} ExecutionContinues(accepts: Target, executed: seq<Bytes>, a: seq<Bytes>, b: seq<Bytes>)
    ensures var (done, ok) := Execute(accepts, executed, a);
            Execute(accepts, executed, a + b) == if ok then Execute(accepts, done, b) else (done, false)
    decreases |a|
  {
    if a == [] {
      assert a + b == b;
    } else {
      assert (a + b)[1..] == a[1..] + b;
      ExecutionContinues(accepts, executed + [a[0]], a[1..], b);
    }
  }

  function Concat(chunks: seq<Bytes>): Bytes {
    if chunks == [] then [] else Concat(chunks[..|chunks| - 1]) + chunks[|chunks| - 1]
  }

  /** However an input is cut into writes, the connection is given the statements of its division in order until it
      refuses one; if it accepts all, what stays in the buffer is what the division leaves. */
  lemma {:induction false} WritesAreChunkIndependent(accepts: Target, chunks: seq<Bytes>)
    ensures var (w, ok) := WriteAll(accepts, chunks);
            var d := Divide(Concat(chunks));
            && (w.executed, ok) == Execute(accepts, [], Statements(d.pieces))
            && (ok ==> w.buf == d.rest)
  {
    hide Divide, Flush, Execute;
    if chunks == [] {
      NothingToExecute(accepts);
    } else {
      var n := |chunks| - 1;
      WritesAreChunkIndependent(accepts, chunks[..n]);
      var (w, ok) := WriteAll(accepts, chunks[..n]);
      var before, chunk := Concat(chunks[..n]), chunks[n];
      var first := Divide(before);
      var second := Divide(first.rest + chunk);
      DivisionContinues(before, chunk);
      StatementsOfBoth(first.pieces, second.pieces);
      ExecutionContinues(accepts, [], Statements(first.pieces), Statements(second.pieces));
      if ok {
        FlushExecutes(accepts, w.(buf := w.buf + chunk));
      }
    }
  }

  lemma NothingToExecute(accepts: Target)
    ensures Divide([]) == Division([], []) && Execute(accepts, [], []) == ([], true)
  {
  }

  /** Two ways of cutting the same bytes execute the same statements with the same outcome, through to the end of
      the input. */
  lemma ChunkingDoesNotMatter(accepts: Target, chunks: seq<Bytes>, others: seq<Bytes>)
    requires Concat(chunks) == Concat(others)
    ensures WriteAll(accepts, chunks).0.executed == WriteAll(accepts, others).0.executed
    ensures WriteAll(accepts, chunks).1 == WriteAll(accepts, others).1
    ensures WriteAll(accepts, chunks).1 ==>
              Finish(accepts, WriteAll(accepts, chunks).0) == Finish(accepts, WriteAll(accepts, others).0)
  {
    hide Divide, Execute, Finish;
    WritesAreChunkIndependent(accepts, chunks);
    WritesAreChunkIndependent(accepts, others);
  }

  /** When everything is accepted, the statements executed with their line ends, and the remaining buffer, are the
      bytes written. */
  lemma NothingIsLost(accepts: Target, chunks: seq<Bytes>)
    requires WriteAll(accepts, chunks).1
    ensures var w := WriteAll(accepts, chunks).0;
            var pieces := Divide(Concat(chunks)).pieces;
            && w.executed == Statements(pieces)
            && Joined(pieces) + w.buf == Concat(chunks)
            && !HasEnd(w.buf)
  {
    hide Divide, Execute, HasEnd;
    WritesAreChunkIndependent(accepts, chunks);
    DivisionIsExact(Concat(chunks));
    AllAccepted(accepts, [], Statements(Divide(Concat(chunks)).pieces));
  }

  lemma {:induction false} AllAccepted(accepts: Target, executed: seq<Bytes>, statements: seq<Bytes>)
    requires Execute(accepts, executed, statements).1
    ensures Execute(accepts, executed, statements).0 == executed + statements
    decreases |statements|
  {
    if statements != [] {
      AllAccepted(accepts, executed + [statements[0]], statements[1..]);
      assert executed + [statements[0]] + statements[1..] == executed + statements;
    }
  }

  // ----- The end of the input

  /** A semicolon followed by nothing but spaces, tabs and line ends. */
  predicate EndsAt(buf: Bytes, k: nat) {
    k < |buf| && buf[k] == 59 && forall j :: k < j < |buf| ==> buf[j] in {32, 9, 10, 13}
  }

  /** Finishing executes what is left up to such a semicolon, if there is one and the target accepts it, and drops the
      blanks after it; anything else stays in the buffer, unexecuted. */
  lemma FinishIsExact(accepts: Target, w: Writer, k: nat)
    ensures EndsAt(w.buf, k) ==>
              Finish(accepts, w) ==
              if accepts(w.executed + [w.buf[..k + 1]]) then (Writer([], w.executed + [w.buf[..k + 1]]), true)
              else (w.(buf := []), false)
    ensures (forall i :: !EndsAt(w.buf, i)) ==> Finish(accepts, w) == (w, true)
  {
    var last := LastSemicolon(w.buf);
    if EndsAt(w.buf, k) {
      assert last == Some(k);
    }
    if last.Some? && !EndsAt(w.buf, last.value) {
      var j :| last.value < j < |w.buf| && w.buf[j] !in {32, 9, 10, 13};
      assert !Blank(w.buf[j]);
    }
  }

  /** From the first write to the end: when all is accepted, the statements with their line ends, then the last statement
      if there is one, then blanks or an unfinished rest, are the bytes written. */
  lemma WholeInputIsAccountedFor(accepts: Target, chunks: seq<Bytes>)
    requires WriteAll(accepts, chunks).1 && Finish(accepts, WriteAll(accepts, chunks).0).1
    ensures var pieces := Divide(Concat(chunks)).pieces;
            var w := WriteAll(accepts, chunks).0;
            var done := Finish(accepts, w).0;
            if exists k :: EndsAt(w.buf, k) then
              exists k :: EndsAt(w.buf, k) && done == Writer([], Statements(pieces) + [w.buf[..k + 1]]) &&
                          Concat(chunks) == Joined(pieces) + w.buf[..k + 1] + w.buf[k + 1..]
            else done == Writer(w.buf, Statements(pieces)) && Concat(chunks) == Joined(pieces) + w.buf
  {
    hide WriteAll, Finish, Divide, Joined, Statements, EndsAt, Concat, HasEnd;
    NothingIsLost(accepts, chunks);
    var w := WriteAll(accepts, chunks).0;
    var pieces := Divide(Concat(chunks)).pieces;
    if k :| EndsAt(w.buf, k) {
      FinishIsExact(accepts, w, k);
      EndIsInside(w.buf, k);
      assert w.buf == w.buf[..k + 1] + w.buf[k + 1..];
      Reassociate(Joined(pieces), w.buf[..k + 1], w.buf[k + 1..]);
    } else {
      FinishIsExact(accepts, w, 0);
    }
  }

  lemma EndIsInside(buf: Bytes, k: nat)
    requires EndsAt(buf, k)
    ensures k < |buf|
  {
  }
}
