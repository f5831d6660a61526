/** The database's side of the logical log (`core/mvcc/persistent_storage/logical_log.rs`): the bytes it writes, and what
    the sync server's scan makes of them. */
module LogWriter {
  import opened Common
  import opened MvccLog

  type U64 = n: int | 0 <= n < U64_LIMIT

  // ----- Frames

  /** Everything that goes into a frame, right or wrong. `records` and `flags` exist only in an extended frame. */
  datatype RawFrame = RawFrame(magic: Word, opCount: Word, commitTs: U64, payload: seq<Byte>,
                               extension: seq<Byte>, records: Word, flags: Word, storedCrc: Word, endMagic: Word)
  {
    predicate Extended() {
      magic == TX_EXT_FRAME_MAGIC
    }

    /** The frame's lengths fit their fields. */
    predicate Fits() {
      |payload| < U64_LIMIT && |extension| < U64_LIMIT && (Extended() || extension == [])
    }

    function Head(): seq<Byte> {
      LittleEndianBytes(magic, 4) + (LittleEndianBytes(|payload|, 8) + (LittleEndianBytes(opCount, 4) +
      LittleEndianBytes(commitTs, 8)))
    }

    function ExtensionHead(): seq<Byte> {
      LittleEndianBytes(|extension|, 8) + (LittleEndianBytes(records, 4) + LittleEndianBytes(flags, 4))
    }

    /** What the checksum covers. */
    function Body(): seq<Byte> {
      if Extended() then Head() + (ExtensionHead() + (extension + payload)) else Head() + payload
    }

    function Bytes(): seq<Byte> {
      Body() + (LittleEndianBytes(storedCrc, 4) + LittleEndianBytes(endMagic, 4))
    }
  }

  lemma Middle(a: seq<Byte>, b: seq<Byte>, c: seq<Byte>, i: nat, j: nat)
    requires i <= j <= |b|
    ensures (a + b + c)[|a| + i..|a| + j] == b[i..j]
  {
  }

  lemma Within(s: seq<Byte>, a: nat, b: nat, i: nat, j: nat)
    requires a <= b <= |s| && i <= j <= b - a
    ensures s[a..b][i..j] == s[a + i..a + j]
  {
    var inner, outer := s[a..b][i..j], s[a + i..a + j];
    assert |inner| == |outer| && forall k :: 0 <= k < |inner| ==> inner[k] == outer[k];
  }

  /** Fields of a frame header, found where the scan looks for them. */
  lemma HeadFields(f: RawFrame)
    ensures |f.Head()| == 24
    ensures f.Head()[0..4] == LittleEndianBytes(f.magic, 4) && f.Head()[4..12] == LittleEndianBytes(|f.payload|, 8)
  {
  }

  lemma ExtensionFields(f: RawFrame)
    ensures |f.ExtensionHead()| == 16
    ensures f.ExtensionHead()[0..8] == LittleEndianBytes(|f.extension|, 8)
    ensures f.ExtensionHead()[8..12] == LittleEndianBytes(f.records, 4)
    ensures f.ExtensionHead()[12..16] == LittleEndianBytes(f.flags, 4)
  {
  }

  lemma BodyFields(f: RawFrame)
    ensures |f.Body()| == (if f.Extended() then 40 else 24) + |f.payload| + (if f.Extended() then |f.extension| else 0)
    ensures f.Body()[..24] == f.Head()
    ensures f.Extended() ==> f.Body()[24..40] == f.ExtensionHead()
  {
    HeadFields(f);
    ExtensionFields(f);
  }

  lemma BytesFields(f: RawFrame)
    ensures |f.Bytes()| == |f.Body()| + 8
    ensures f.Bytes()[..|f.Body()|] == f.Body()
    ensures f.Bytes()[|f.Body()|..|f.Body()| + 4] == LittleEndianBytes(f.storedCrc, 4)
    ensures f.Bytes()[|f.Body()| + 4..|f.Body()| + 8] == LittleEndianBytes(f.endMagic, 4)
  {
  }

  /** The numbers the scan reads from a frame in the middle of a log. */
  lemma FrameNumbers(before: seq<Byte>, f: RawFrame, after: seq<Byte>)
    requires f.Fits()
    ensures var log, at, n := before + f.Bytes() + after, |before|, |f.Body()|;
            && |f.Bytes()| == n + 8 && |log| >= at + n + 8 && n >= 24
            && U32At(log, at) == f.magic && U64At(log, at + 4) == |f.payload|
            && log[at..at + n] == f.Body()
            && U32At(log, at + n) == f.storedCrc && U32At(log, at + n + 4) == f.endMagic
  {
    hide RawFrame.Body, RawFrame.Head, RawFrame.Bytes, LittleEndian, LittleEndianBytes, Pow256;
    var log, at, n := before + f.Bytes() + after, |before|, |f.Body()|;
    HeadFields(f);
    BodyFields(f);
    BytesFields(f);
    Widths();
    LittleEndianRoundTrip(f.magic, 4);
    LittleEndianRoundTrip(|f.payload|, 8);
    LittleEndianRoundTrip(f.storedCrc, 4);
    LittleEndianRoundTrip(f.endMagic, 4);
    assert f.Body()[0..24] == f.Head() && f.Bytes()[0..n] == f.Body();
    Within(f.Body(), 0, 24, 0, 4);
    Within(f.Body(), 0, 24, 4, 12);
    Within(f.Bytes(), 0, n, 0, 4);
    Within(f.Bytes(), 0, n, 4, 12);
    Middle(before, f.Bytes(), after, 0, 4);
    Middle(before, f.Bytes(), after, 4, 12);
    Middle(before, f.Bytes(), after, 0, n);
    Middle(before, f.Bytes(), after, n, n + 4);
    Middle(before, f.Bytes(), after, n + 4, n + 8);
  }

  lemma ExtensionNumbers(before: seq<Byte>, f: RawFrame, after: seq<Byte>)
    requires f.Fits() && f.Extended()
    ensures var log, at := before + f.Bytes() + after, |before|;
            && |log| >= at + 48
            && U64At(log, at + 24) == |f.extension| && U32At(log, at + 32) == f.records && U32At(log, at + 36) == f.flags
  {
    hide RawFrame.Body, RawFrame.Bytes, RawFrame.ExtensionHead, LittleEndian, LittleEndianBytes, Pow256;
    BodyFields(f);
    BytesFields(f);
    ExtensionFields(f);
    Widths();
    LittleEndianRoundTrip(|f.extension|, 8);
    LittleEndianRoundTrip(f.records, 4);
    LittleEndianRoundTrip(f.flags, 4);
    var body, b := f.Body(), f.Bytes();
    assert b[0..|body|] == body;
    Within(body, 24, 40, 0, 8);
    Within(body, 24, 40, 8, 12);
    Within(body, 24, 40, 12, 16);
    Within(b, 0, |body|, 24, 32);
    Within(b, 0, |body|, 32, 36);
    Within(b, 0, |body|, 36, 40);
    Middle(before, b, after, 24, 32);
    Middle(before, b, after, 32, 36);
    Middle(before, b, after, 36, 40);
  }

  /** What a frame is worth: the first thing wrong with it, or the boundary after it. */
  function Verdict(scanner: Scanner, f: RawFrame, end: nat, crc: Word): Result<Option<Boundary>, LogError> {
    if f.magic != TX_FRAME_MAGIC && f.magic != TX_EXT_FRAME_MAGIC then Err(InvalidFrameMagic)
    else if f.Extended() && f.flags > 1 then Err(UnsupportedFrameFlags)
    else if f.Extended() && f.extension == [] && f.records != 0 then Err(RecordCountWithoutExtension)
    else if f.Extended() && f.extension != [] && f.flags == 0 then Err(ExtensionWithoutFlag)
    else if f.storedCrc != scanner.append(crc, f.Body()) then Err(FrameChecksumMismatch)
    else if f.endMagic != TX_END_MAGIC then Err(InvalidEndMagic)
    else Ok(Some(Boundary(end, f.storedCrc)))
  }

  /** The scan judges every frame, right or wrong, by its fields, with the checksum continued from the frame before. */
  lemma FrameIsJudged(scanner: Scanner, before: seq<Byte>, f: RawFrame, after: seq<Byte>, crc: Word)
    requires f.Fits() && |before + f.Bytes()| < U64_LIMIT
    ensures scanner.ReadFrame(before + f.Bytes() + after, |before|, crc) ==
            Verdict(scanner, f, |before + f.Bytes()|, crc)
  {
    hide RawFrame.Body, RawFrame.Bytes, U32At, U64At;
    FrameNumbers(before, f, after);
    BodyFields(f);
    if f.Extended() {
      ExtensionNumbers(before, f, after);
    }
  }

  /** A frame header that claims more than the log holds is a torn tail, unless no log could hold it. */
  lemma ClaimIsJudged(scanner: Scanner, before: seq<Byte>, size: U64, rest: seq<Byte>, crc: Word)
    requires |rest| >= 20
    ensures var log := before + (LittleEndianBytes(TX_FRAME_MAGIC, 4) + LittleEndianBytes(size, 8)) + rest;
            var end := |before| + 32 + size;
            && (end >= U64_LIMIT ==> scanner.ReadFrame(log, |before|, crc) == Err(OffsetOverflow))
            && (|log| < end < U64_LIMIT ==> scanner.ReadFrame(log, |before|, crc) == Ok(None))
  {
    hide LittleEndian, LittleEndianBytes, Pow256;
    var head := LittleEndianBytes(TX_FRAME_MAGIC, 4) + LittleEndianBytes(size, 8);
    Widths();
    LittleEndianRoundTrip(TX_FRAME_MAGIC, 4);
    LittleEndianRoundTrip(size, 8);
    assert head[0..4] == LittleEndianBytes(TX_FRAME_MAGIC, 4) && head[4..12] == LittleEndianBytes(size, 8);
    Middle(before, head, rest, 0, 4);
    Middle(before, head, rest, 4, 12);
  }

  // ----- The header

  datatype RawHeader = RawHeader(magic: Word, version: Byte, flags: Byte, length: nat, salt: U64, reserved: seq<Byte>, crc: Word)
  {
    predicate Fits() {
      length < 0x1_0000 && |reserved| == 36
    }

    function Front(): seq<Byte> {
      LittleEndianBytes(magic, 4) + ([version, flags] + (LittleEndianBytes(length, 2) +
      (LittleEndianBytes(salt, 8) + reserved)))
    }

    function Bytes(): seq<Byte> {
      Front() + LittleEndianBytes(crc, 4)
    }
  }

  function HeaderVerdict(scanner: Scanner, h: RawHeader): Option<LogError> {
    if h.magic != LOG_MAGIC then Some(InvalidMagic)
    else if h.version != LOG_VERSION then Some(UnsupportedVersion(h.version))
    else if h.flags > 1 then Some(InvalidHeaderFlags)
    else if h.length != 56 then Some(InvalidHeaderLength)
    else if exists b :: b in h.reserved && b != 0 then Some(ReservedBytesNotZero)
    else if h.crc != scanner.append(0, h.Front() + [0, 0, 0, 0]) then Some(HeaderChecksumMismatch)
    else None
  }

  lemma FrontFields(h: RawHeader)
    requires h.Fits()
    ensures |h.Front()| == 52
    ensures h.Front()[0..4] == LittleEndianBytes(h.magic, 4) && h.Front()[4] == h.version && h.Front()[5] == h.flags
    ensures h.Front()[6..8] == LittleEndianBytes(h.length, 2) && h.Front()[8..16] == LittleEndianBytes(h.salt, 8)
    ensures h.Front()[16..] == h.reserved
  {
  }

  lemma HeaderNumbers(h: RawHeader, rest: seq<Byte>)
    requires h.Fits()
    ensures var log := h.Bytes() + rest;
            && |h.Bytes()| == 56 <= |log|
            && U32At(log, 0) == h.magic && log[4] == h.version && log[5] == h.flags
            && LittleEndian(log[6..8]) == h.length && log[8..16] == LittleEndianBytes(h.salt, 8)
            && log[16..52] == h.reserved && U32At(log, 52) == h.crc && log[..52] == h.Front()
  {
    hide RawHeader.Front, LittleEndian, LittleEndianBytes, Pow256;
    FrontFields(h);
    Widths();
    LittleEndianRoundTrip(h.magic, 4);
    LittleEndianRoundTrip(h.length, 2);
    LittleEndianRoundTrip(h.crc, 4);
    var log, front := h.Bytes() + rest, h.Front();
    assert log[..52] == front;
    assert log[0..4] == front[0..4] && log[6..8] == front[6..8] && log[8..16] == front[8..16];
    assert log[16..52] == front[16..] && log[52..56] == LittleEndianBytes(h.crc, 4);
  }

  /** The scan judges every header by its fields. */
  lemma HeaderIsJudged(scanner: Scanner, h: RawHeader, rest: seq<Byte>)
    requires h.Fits()
    ensures |h.Bytes()| == LOG_HEADER_SIZE
    ensures scanner.HeaderError(h.Bytes() + rest) == HeaderVerdict(scanner, h)
    ensures scanner.InitialCrc(h.Bytes() + rest) == scanner.append(0, LittleEndianBytes(h.salt, 8))
  {
    hide RawHeader.Front, RawHeader.Bytes, U32At, LittleEndian;
    HeaderNumbers(h, rest);
    var log := h.Bytes() + rest;
    if i :| 16 <= i < 52 && log[i] != 0 {
      assert log[16..52][i - 16] in h.reserved;
    }
    if b :| b in log[16..52] && b != 0 {
      var k :| 0 <= k < 36 && log[16..52][k] == b;
      assert log[k + 16] != 0;
    }
  }

  // ----- Whole logs

  /** A committed transaction as the writer lays it out; an extension block is never empty. */
  datatype Tx = Tx(opCount: Word, commitTs: U64, payload: seq<Byte>, extension: Option<seq<Byte>>) {
    predicate Writable() {
      |payload| < U64_LIMIT && (extension.Some? ==> 0 < |extension.value| < U64_LIMIT)
    }
  }

  function Unsigned(tx: Tx): RawFrame {
    if tx.extension.Some?
    then RawFrame(TX_EXT_FRAME_MAGIC, tx.opCount, tx.commitTs, tx.payload, tx.extension.value, 1, 1, 0, TX_END_MAGIC)
    else RawFrame(TX_FRAME_MAGIC, tx.opCount, tx.commitTs, tx.payload, [], 0, 0, 0, TX_END_MAGIC)
  }

  /** The frame written after one that ended with `crc`. */
  function FrameOf(scanner: Scanner, crc: Word, tx: Tx): RawFrame {
    Unsigned(tx).(storedCrc := scanner.append(crc, Unsigned(tx).Body()))
  }

  function Frames(scanner: Scanner, crc: Word, txs: seq<Tx>): seq<Byte>
    decreases |txs|
  {
    if txs == [] then []
    else
      var f := FrameOf(scanner, crc, txs[0]);
      f.Bytes() + Frames(scanner, f.storedCrc, txs[1..])
  }

  function HeaderOf(scanner: Scanner, salt: U64): RawHeader {
    var h := RawHeader(LOG_MAGIC, LOG_VERSION, 0, 56, salt, seq(36, _ => 0), 0);
    h.(crc := scanner.append(0, h.Front() + [0, 0, 0, 0]))
  }

  function SaltCrc(scanner: Scanner, salt: U64): Word {
    scanner.append(0, LittleEndianBytes(salt, 8))
  }

  function Written(scanner: Scanner, salt: U64, txs: seq<Tx>): seq<Byte> {
    HeaderOf(scanner, salt).Bytes() + Frames(scanner, SaltCrc(scanner, salt), txs)
  }

  /** Where each frame ends and the checksum it ends with. */
  function Ends(scanner: Scanner, offset: nat, crc: Word, txs: seq<Tx>): seq<Boundary>
    decreases |txs|
  {
    if txs == [] then []
    else
      var f := FrameOf(scanner, crc, txs[0]);
      [Boundary(offset + |f.Bytes()|, f.storedCrc)] + Ends(scanner, offset + |f.Bytes()|, f.storedCrc, txs[1..])
  }

  lemma WrittenFrameIsGood(scanner: Scanner, before: seq<Byte>, crc: Word, tx: Tx, after: seq<Byte>)
    requires tx.Writable() && |before + FrameOf(scanner, crc, tx).Bytes()| < U64_LIMIT
    ensures var f := FrameOf(scanner, crc, tx);
            scanner.ReadFrame(before + f.Bytes() + after, |before|, crc) ==
            Ok(Some(Boundary(|before| + |f.Bytes()|, f.storedCrc)))
  {
    hide RawFrame.Body, RawFrame.Bytes;
    var f := FrameOf(scanner, crc, tx);
    SameBody(Unsigned(tx), f.storedCrc);
    FrameIsJudged(scanner, before, f, after, crc);
  }

  lemma SameBody(f: RawFrame, crc: Word)
    ensures f.(storedCrc := crc).Body() == f.Body()
  {
  }

  /** The checksum after all of them. */
  function LastCrc(scanner: Scanner, crc: Word, txs: seq<Tx>): Word
    decreases |txs|
  {
    if txs == [] then crc else LastCrc(scanner, FrameOf(scanner, crc, txs[0]).storedCrc, txs[1..])
  }

  lemma PrependNothing(rest: Result<seq<Boundary>, LogError>)
    ensures Prepend([], rest) == rest
  {
    assert rest.Ok? ==> [] + rest.value == rest.value;
  }

  lemma ScanUnfolds(scanner: Scanner, log: seq<Byte>, offset: nat, crc: Word, b: Boundary)
    requires offset <= |log| && scanner.ReadFrame(log, offset, crc) == Ok(Some(b))
    ensures b.offset <= |log| && scanner.ScanFrom(log, offset, crc) == Prepend([b], scanner.ScanFrom(log, b.offset, b.crc))
  {
  }

  /** Written frames are passed over one by one, whatever comes after them. */
  lemma {:induction false} FramesScan(scanner: Scanner, before: seq<Byte>, crc: Word, txs: seq<Tx>, tail: seq<Byte>)
    requires forall tx :: tx in txs ==> tx.Writable()
    requires |before| + |Frames(scanner, crc, txs)| < U64_LIMIT
    ensures var frames := Frames(scanner, crc, txs);
            var log := before + frames + tail;
            scanner.ScanFrom(log, |before|, crc) ==
            Prepend(Ends(scanner, |before|, crc, txs),
                    scanner.ScanFrom(log, |before + frames|, LastCrc(scanner, crc, txs)))
    decreases |txs|
  {
    hide FrameOf, RawFrame.Bytes, Scanner.ReadFrame, Scanner.ScanFrom;
    var frames := Frames(scanner, crc, txs);
    var log := before + frames + tail;
    if txs == [] {
      PrependNothing(scanner.ScanFrom(log, |before|, crc));
      assert before + [] == before;
    } else {
      var f := FrameOf(scanner, crc, txs[0]);
      var rest := Frames(scanner, f.storedCrc, txs[1..]);
      assert txs[0] in txs;
      assert log == before + f.Bytes() + (rest + tail) && log == before + f.Bytes() + rest + tail;
      WrittenFrameIsGood(scanner, before, crc, txs[0], rest + tail);
      ScanUnfolds(scanner, log, |before|, crc, Boundary(|before| + |f.Bytes()|, f.storedCrc));
      FramesScan(scanner, before + f.Bytes(), f.storedCrc, txs[1..], tail);
      assert |before + f.Bytes()| == |before| + |f.Bytes()| && before + f.Bytes() + rest == before + frames;
      PrependTwice([Boundary(|before| + |f.Bytes()|, f.storedCrc)],
                   Ends(scanner, |before| + |f.Bytes()|, f.storedCrc, txs[1..]),
                   scanner.ScanFrom(log, |before + frames|, LastCrc(scanner, crc, txs)));
    }
  }

  lemma EndOfLog(scanner: Scanner, log: seq<Byte>, crc: Word)
    ensures scanner.ScanFrom(log, |log|, crc) == Ok([])
  {
  }

  /** A log the database wrote, followed by anything: the scan lists the ends of the transactions, each with the checksum
      chained through all transactions up to it, and goes on with the rest. */
  lemma WrittenPrefixScans(scanner: Scanner, salt: U64, txs: seq<Tx>, tail: seq<Byte>)
    requires forall tx :: tx in txs ==> tx.Writable()
    requires |Written(scanner, salt, txs)| < U64_LIMIT
    ensures var log := Written(scanner, salt, txs) + tail;
            var crc := SaltCrc(scanner, salt);
            scanner.Scan(log) ==
            match Prepend([Boundary(56, crc)] + Ends(scanner, 56, crc, txs),
                          scanner.ScanFrom(log, |Written(scanner, salt, txs)|, LastCrc(scanner, crc, txs)))
            case Err(e) => Err(e)
            case Ok(bs) => Ok(Snapshot(bs[|bs| - 1].offset, bs))
  {
    hide Frames, RawHeader.Bytes, HeaderOf, Scanner.ScanFrom, Scanner.HeaderError, Scanner.InitialCrc, SaltCrc, Ends, LastCrc;
    var h, crc := HeaderOf(scanner, salt), SaltCrc(scanner, salt);
    var frames := Frames(scanner, crc, txs);
    HeaderIsGood(scanner, salt, frames + tail);
    FramesScan(scanner, h.Bytes(), crc, txs, tail);
    var log := Written(scanner, salt, txs) + tail;
    assert log == h.Bytes() + (frames + tail);
    PrependTwice([Boundary(56, crc)], Ends(scanner, 56, crc, txs),
                 scanner.ScanFrom(log, |h.Bytes() + frames|, LastCrc(scanner, crc, txs)));
  }

  lemma HeaderIsGood(scanner: Scanner, salt: U64, rest: seq<Byte>)
    ensures |HeaderOf(scanner, salt).Bytes()| == 56
    ensures scanner.HeaderError(HeaderOf(scanner, salt).Bytes() + rest).None?
    ensures scanner.InitialCrc(HeaderOf(scanner, salt).Bytes() + rest) == SaltCrc(scanner, salt)
  {
    hide RawHeader.Bytes, RawHeader.Front;
    var h := HeaderOf(scanner, salt);
    HeaderIsJudged(scanner, h, rest);
    SameFront(h, 0);
  }

  /** The sync server reads every log the database writes: its boundaries are exactly the ends of the transactions. */
  lemma WrittenLogScans(scanner: Scanner, salt: U64, txs: seq<Tx>)
    requires forall tx :: tx in txs ==> tx.Writable()
    requires |Written(scanner, salt, txs)| < U64_LIMIT
    ensures var log := Written(scanner, salt, txs);
            var boundaries := [Boundary(56, SaltCrc(scanner, salt))] + Ends(scanner, 56, SaltCrc(scanner, salt), txs);
            scanner.Scan(log) == Ok(Snapshot(|log|, boundaries))
  {
    hide Scanner.ScanFrom, Scanner.Scan, Ends, Frames, RawHeader.Bytes, HeaderOf, Scanner.HeaderError, Scanner.InitialCrc;
    var log, crc := Written(scanner, salt, txs), SaltCrc(scanner, salt);
    var boundaries := [Boundary(56, crc)] + Ends(scanner, 56, crc, txs);
    assert log + [] == log && boundaries + [] == boundaries;
    WrittenPrefixScans(scanner, salt, txs, []);
    EndOfLog(scanner, log, LastCrc(scanner, crc, txs));
    EndsAtEnd(scanner, 56, crc, txs);
    HeaderIsGood(scanner, salt, []);
  }

  /** One bad frame after any number of written ones is refused for what is wrong with it. A checksum that does not
      continue the one before is such a fault. */
  lemma BadFrameIsRefused(scanner: Scanner, salt: U64, txs: seq<Tx>, f: RawFrame, tail: seq<Byte>)
    requires forall tx :: tx in txs ==> tx.Writable()
    requires f.Fits() && |Written(scanner, salt, txs) + f.Bytes()| < U64_LIMIT
    ensures var log := Written(scanner, salt, txs);
            var verdict := Verdict(scanner, f, |log + f.Bytes()|, LastCrc(scanner, SaltCrc(scanner, salt), txs));
            verdict.Err? ==> scanner.Scan(log + f.Bytes() + tail) == Err(verdict.error)
  {
    hide Written, Scanner.Scan, Scanner.ReadFrame, Verdict, RawFrame.Bytes;
    var log := Written(scanner, salt, txs);
    assert log + f.Bytes() + tail == log + (f.Bytes() + tail);
    WrittenPrefixScans(scanner, salt, txs, f.Bytes() + tail);
    FrameIsJudged(scanner, log, f, tail, LastCrc(scanner, SaltCrc(scanner, salt), txs));
  }

  lemma SameFront(h: RawHeader, crc: Word)
    ensures h.Front() == h.(crc := crc).Front()
  {
  }

  lemma {:induction false} EndsAtEnd(scanner: Scanner, offset: nat, crc: Word, txs: seq<Tx>)
    ensures var bs := [Boundary(offset, crc)] + Ends(scanner, offset, crc, txs);
            bs[|bs| - 1].offset == offset + |Frames(scanner, crc, txs)|
    decreases |txs|
  {
    hide FrameOf, RawFrame.Bytes;
    if txs != [] {
      var f := FrameOf(scanner, crc, txs[0]);
      EndsAtEnd(scanner, offset + |f.Bytes()|, f.storedCrc, txs[1..]);
    }
  }
}
