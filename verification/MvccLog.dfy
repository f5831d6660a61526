/** The CRC-chained MVCC logical log and the scan that finds its transaction boundaries
    (`cli/sync_server.rs`). */
module MvccLog {
  import opened Common

  type Word = w: int | 0 <= w < 0x1_0000_0000

  const LOG_MAGIC: nat := 0x4C4D4C32
  const LOG_VERSION: Byte := 3
  const LOG_HEADER_SIZE: nat := 56
  const TX_FRAME_MAGIC: nat := 0x5854564D
  const TX_EXT_FRAME_MAGIC: nat := 0x5845564D
  const TX_END_MAGIC: nat := 0x4554564D
  const TX_HEADER_SIZE: nat := 24
  const TX_EXT_HEADER_SIZE: nat := 40
  const TX_TRAILER_SIZE: nat := 8

  datatype LogError =
    | TruncatedHeader
    | InvalidMagic
    | UnsupportedVersion(version: Byte)
    | InvalidHeaderFlags
    | InvalidHeaderLength
    | ReservedBytesNotZero
    | HeaderChecksumMismatch
    | InvalidFrameMagic
    | UnsupportedFrameFlags
    | RecordCountWithoutExtension
    | ExtensionWithoutFlag
    | OffsetOverflow
    | FrameChecksumMismatch
    | InvalidEndMagic

  /** A transaction boundary: the offset it ends at and the running CRC there. */
  datatype Boundary = Boundary(offset: nat, crc: Word)

  datatype Snapshot = Snapshot(endOffset: nat, boundaries: seq<Boundary>) {

    /** `MvccLogSnapshot::crc_seed_at`: the CRC of the first boundary at `offset`. */
    function CrcSeedAt(offset: nat): Option<Word> {
      FirstAt(boundaries, offset)
    }
  }

  function FirstAt(bs: seq<Boundary>, offset: nat): Option<Word> {
    if bs == [] then None
    else if bs[0].offset == offset then Some(bs[0].crc)
    else FirstAt(bs[1..], offset)
  }

  ghost predicate Increasing(bs: seq<Boundary>) {
    forall i, j :: 0 <= i < j < |bs| ==> bs[i].offset < bs[j].offset
  }

  /** On increasing offsets the search succeeds exactly on boundaries, with their own CRC. */
  lemma {:induction false} FirstAtFinds(bs: seq<Boundary>, i: nat)
    requires Increasing(bs) && i < |bs|
    ensures FirstAt(bs, bs[i].offset) == Some(bs[i].crc)
  {
    if i > 0 {
      FirstAtFinds(bs[1..], i - 1);
    }
  }

  lemma {:induction false} FirstAtMisses(bs: seq<Boundary>, offset: nat)
    ensures FirstAt(bs, offset).Some? <==> exists i :: 0 <= i < |bs| && bs[i].offset == offset
  {
    if bs != [] && bs[0].offset != offset {
      FirstAtMisses(bs[1..], offset);
      if i :| 0 <= i < |bs| && bs[i].offset == offset {
        assert bs[1..][i - 1].offset == offset;
      }
    }
  }

  function Prepend(done: seq<Boundary>, rest: Result<seq<Boundary>, LogError>): Result<seq<Boundary>, LogError> {
    match rest
    case Err(e) => Err(e)
    case Ok(bs) => Ok(done + bs)
  }

  lemma PrependTwice(a: seq<Boundary>, b: seq<Boundary>, rest: Result<seq<Boundary>, LogError>)
    ensures Prepend(a, Prepend(b, rest)) == Prepend(a + b, rest)
  {
    if rest.Ok? {
      assert a + (b + rest.value) == (a + b) + rest.value;
    }
  }

  function U32At(log: seq<Byte>, at: nat): nat
    requires at + 4 <= |log|
  {
    LittleEndian(log[at..at + 4])
  }

  function U64At(log: seq<Byte>, at: nat): nat
    requires at + 8 <= |log|
  {
    LittleEndian(log[at..at + 8])
  }

  /** The scan, for an arbitrary checksum `append(seed, bytes)`. */
  datatype Scanner = Scanner(append: (Word, seq<Byte>) -> Word) {

    /** `validate_mvcc_log_header`: the first failing test, if any. */
    function HeaderError(log: seq<Byte>): Option<LogError>
      requires |log| >= LOG_HEADER_SIZE
    {
      if U32At(log, 0) != LOG_MAGIC then Some(InvalidMagic)
      else if log[4] != LOG_VERSION then Some(UnsupportedVersion(log[4]))
      else if log[5] >= 2 then Some(InvalidHeaderFlags)
      else if LittleEndian(log[6..8]) != LOG_HEADER_SIZE then Some(InvalidHeaderLength)
      else if exists i :: 16 <= i < 52 && log[i] != 0 then Some(ReservedBytesNotZero)
      else if U32At(log, 52) != append(0, log[..52] + [0, 0, 0, 0]) then Some(HeaderChecksumMismatch)
      else None
    }

    /** `initial_mvcc_log_crc`: the checksum of the header's salt. */
    function InitialCrc(log: seq<Byte>): Word
      requires |log| >= LOG_HEADER_SIZE
    {
      append(0, log[8..16])
    }

    /** The extension block's size, or why the extended frame header is refused. */
    function ExtensionSize(log: seq<Byte>, offset: nat): Result<nat, LogError>
      requires offset + TX_EXT_HEADER_SIZE <= |log|
    {
      var size := U64At(log, offset + 24);
      var records := U32At(log, offset + 32);
      var flags := U32At(log, offset + 36);
      if flags >= 2 then Err(UnsupportedFrameFlags)
      else if size == 0 && records != 0 then Err(RecordCountWithoutExtension)
      else if size > 0 && flags % 2 == 0 then Err(ExtensionWithoutFlag)
      else Ok(size)
    }

    /** `read_mvcc_frame_boundary`: the next boundary, `None` on a torn tail. */
    function ReadFrame(log: seq<Byte>, offset: nat, crc: Word): (r: Result<Option<Boundary>, LogError>)
      requires offset <= |log|
      ensures r.Ok? && r.value.Some? ==> offset + 32 <= r.value.value.offset <= |log|
    {
      if |log| - offset < TX_HEADER_SIZE + TX_TRAILER_SIZE then Ok(None)
      else
        var magic := U32At(log, offset);
        if magic != TX_FRAME_MAGIC && magic != TX_EXT_FRAME_MAGIC then Err(InvalidFrameMagic)
        else
          var headerSize := if magic == TX_EXT_FRAME_MAGIC then TX_EXT_HEADER_SIZE else TX_HEADER_SIZE;
          if |log| - offset < headerSize + TX_TRAILER_SIZE then Ok(None)
          else
            match if magic == TX_EXT_FRAME_MAGIC then ExtensionSize(log, offset) else Ok(0)
            case Err(e) => Err(e)
            case Ok(extensionSize) =>
              var trailer := offset + headerSize + U64At(log, offset + 4) + extensionSize;
              if trailer + TX_TRAILER_SIZE >= U64_LIMIT then Err(OffsetOverflow)
              else if trailer + TX_TRAILER_SIZE > |log| then Ok(None)
              else if U32At(log, trailer) != append(crc, log[offset..trailer]) then Err(FrameChecksumMismatch)
              else if U32At(log, trailer + 4) != TX_END_MAGIC then Err(InvalidEndMagic)
              else Ok(Some(Boundary(trailer + TX_TRAILER_SIZE, append(crc, log[offset..trailer]))))
    }

    /** The boundaries after `offset`, or the first error met. */
    function ScanFrom(log: seq<Byte>, offset: nat, crc: Word): Result<seq<Boundary>, LogError>
      requires offset <= |log|
      decreases |log| - offset
    {
      match ReadFrame(log, offset, crc)
      case Err(e) => Err(e)
      case Ok(None) => Ok([])
      case Ok(Some(b)) =>
        Prepend([b], ScanFrom(log, b.offset, b.crc))
    }

    /** What `scan_mvcc_log` computes. */
    function Scan(log: seq<Byte>): Result<Snapshot, LogError> {
      if log == [] then Ok(Snapshot(0, [Boundary(0, 0)]))
      else if |log| < LOG_HEADER_SIZE then Err(TruncatedHeader)
      else
        match HeaderError(log)
        case Some(e) => Err(e)
        case None =>
          match ScanFrom(log, LOG_HEADER_SIZE, InitialCrc(log))
          case Err(e) => Err(e)
          case Ok(rest) =>
            var bs := [Boundary(LOG_HEADER_SIZE, InitialCrc(log))] + rest;
            Ok(Snapshot(bs[|bs| - 1].offset, bs))
    }

    /** `scan_mvcc_log`, as the source runs it. */
    method ScanLog(log: seq<Byte>) returns (r: Result<Snapshot, LogError>)
      ensures r == Scan(log)
    {
      if log == [] {
        return Ok(Snapshot(0, [Boundary(0, 0)]));
      }
      if |log| < LOG_HEADER_SIZE {
        return Err(TruncatedHeader);
      }
      var headerError := HeaderError(log);
      if headerError.Some? {
        return Err(headerError.value);
      }
      var runningCrc := InitialCrc(log);
      var offset := LOG_HEADER_SIZE;
      var boundaries := [Boundary(offset, runningCrc)];
      ghost var goal := ScanFrom(log, offset, runningCrc);
      assert boundaries[1..] == [] && (goal.Ok? ==> [] + goal.value == goal.value);
      while offset < |log|
        invariant LOG_HEADER_SIZE <= offset <= |log|
        invariant |boundaries| > 0 && boundaries[0] == Boundary(LOG_HEADER_SIZE, InitialCrc(log))
        invariant boundaries[|boundaries| - 1] == Boundary(offset, runningCrc)
        invariant goal == Prepend(boundaries[1..], ScanFrom(log, offset, runningCrc))
      {
        var frame := ReadFrame(log, offset, runningCrc);
        if frame.Err? {
          return Err(frame.error);
        }
        if frame.value.None? {
          break;
        }
        ghost var before := boundaries;
        runningCrc := frame.value.value.crc;
        offset := frame.value.value.offset;
        boundaries := boundaries + [Boundary(offset, runningCrc)];
        assert boundaries[1..] == before[1..] + [frame.value.value];
        PrependTwice(before[1..], [frame.value.value], ScanFrom(log, offset, runningCrc));
      }
      assert ScanFrom(log, offset, runningCrc) == Ok([]) && boundaries[1..] + [] == boundaries[1..];
      assert boundaries == [Boundary(LOG_HEADER_SIZE, InitialCrc(log))] + boundaries[1..];
      return Ok(Snapshot(offset, boundaries));
    }

    /** `bs` are the boundaries read one after another from `offset` until the log is used up or torn. */
    ghost predicate Chain(log: seq<Byte>, offset: nat, crc: Word, bs: seq<Boundary>)
      requires offset <= |log|
      decreases |bs|
    {
      if bs == [] then ReadFrame(log, offset, crc) == Ok(None)
      else
        && ReadFrame(log, offset, crc) == Ok(Some(bs[0]))
        && Chain(log, bs[0].offset, bs[0].crc, bs[1..])
    }

    /** A scan succeeds with `bs` exactly when `bs` is the chain of frames from its start. */
    lemma {:induction false} ScanIsChain(log: seq<Byte>, offset: nat, crc: Word, bs: seq<Boundary>)
      requires offset <= |log|
      ensures ScanFrom(log, offset, crc) == Ok(bs) <==> Chain(log, offset, crc, bs)
      decreases |log| - offset
    {
      hide ReadFrame;
      var r := ReadFrame(log, offset, crc);
      if r.Ok? && r.value.Some? {
        var b := r.value.value;
        if bs != [] {
          ScanIsChain(log, b.offset, b.crc, bs[1..]);
          assert bs == [bs[0]] + bs[1..];
        }
      }
    }

    // ----- Truncation and extension

    /** Frame reading looks only at bytes it has, so cutting the log either leaves a frame
        whole or turns it into a torn tail. */
    lemma ReadFrameOfTruncation(log: seq<Byte>, offset: nat, crc: Word, cut: nat)
      requires offset <= cut <= |log| && ReadFrame(log, offset, crc).Ok?
      ensures ReadFrame(log[..cut], offset, crc) ==
              var r := ReadFrame(log, offset, crc);
              if r.value.Some? && r.value.value.offset <= cut then r else Ok(None)
    {
      hide LittleEndian;
      assert forall a, b :: 0 <= a <= b <= cut ==> log[..cut][a..b] == log[a..b];
    }

    /** Frames are found in order, inside the log. */
    lemma {:induction false} ScanFromShape(log: seq<Byte>, offset: nat, crc: Word)
      requires offset <= |log| && ScanFrom(log, offset, crc).Ok?
      ensures var bs := ScanFrom(log, offset, crc).value;
              && Increasing(bs)
              && (bs != [] ==> offset < bs[0].offset <= bs[|bs| - 1].offset <= |log|)
      decreases |log| - offset
    {
      hide ReadFrame;
      var r := ReadFrame(log, offset, crc).value;
      if r.Some? {
        ScanFromShape(log, r.value.offset, r.value.crc);
      }
    }

    /** A successful scan of frames restricted to the boundaries that fit in a truncation. */
    lemma {:induction false} ScanFromOfTruncation(log: seq<Byte>, offset: nat, crc: Word, cut: nat)
      requires offset <= cut <= |log| && ScanFrom(log, offset, crc).Ok?
      ensures ScanFrom(log[..cut], offset, crc).Ok?
      ensures Fits(ScanFrom(log[..cut], offset, crc).value, ScanFrom(log, offset, crc).value, cut)
      decreases |log| - offset
    {
      ReadFrameOfTruncation(log, offset, crc, cut);
      ScanFromShape(log, offset, crc);
      hide ReadFrame;
      var r := ReadFrame(log, offset, crc).value;
      if r.Some? && r.value.offset <= cut {
        ScanFromOfTruncation(log, r.value.offset, r.value.crc, cut);
      }
    }

    /** The first boundary of a non-empty log. */
    function First(log: seq<Byte>): Boundary
      requires |log| >= LOG_HEADER_SIZE
    {
      Boundary(LOG_HEADER_SIZE, InitialCrc(log))
    }

    /** Every successful scan lists boundaries in increasing order, ending at its end offset. */
    lemma ScanShape(log: seq<Byte>)
      requires Scan(log).Ok?
      ensures var s := Scan(log).value;
              && s.boundaries != [] && Increasing(s.boundaries)
              && s.endOffset == s.boundaries[|s.boundaries| - 1].offset <= |log|
              && (s.endOffset == 0 || s.endOffset >= LOG_HEADER_SIZE)
              && forall b :: b in s.boundaries ==> b.offset <= s.endOffset
    {
      if log != [] {
        ScanFromShape(log, LOG_HEADER_SIZE, InitialCrc(log));
      }
      var bs := Scan(log).value.boundaries;
      assert Increasing(bs);
    }

    /** A log that was never written has one boundary, and one cut off inside the header none. */
    lemma ShortLogs(log: seq<Byte>)
      ensures Scan([]) == Ok(Snapshot(0, [Boundary(0, 0)]))
      ensures 0 < |log| < LOG_HEADER_SIZE ==> Scan(log) == Err(TruncatedHeader)
    {
    }

    /** Torn tails are harmless: a truncation of a scannable log scans exactly when it keeps the
        whole header (or nothing), and then finds precisely the boundaries and CRCs that fit. */
    lemma TruncationScans(log: seq<Byte>, cut: nat)
      requires Scan(log).Ok? && cut <= |log|
      ensures Scan(log[..cut]).Ok? <==> cut == 0 || cut >= LOG_HEADER_SIZE
      ensures cut >= LOG_HEADER_SIZE ==>
                Fits(Scan(log[..cut]).value.boundaries, Scan(log).value.boundaries, cut)
    {
      if cut >= LOG_HEADER_SIZE {
        var part := log[..cut];
        assert part[8..16] == log[8..16];
        assert HeaderError(part) == HeaderError(log) by {
          assert part[0..4] == log[0..4] && part[6..8] == log[6..8] && part[52..56] == log[52..56];
          assert part[..52] == log[..52];
          assert forall i :: 16 <= i < 52 ==> part[i] == log[i];
        }
        ScanFromOfTruncation(log, LOG_HEADER_SIZE, InitialCrc(log), cut);
      }
    }

    /** Appending never disturbs boundaries already found, unless the log was still empty: an empty
        log lists the boundary at offset 0, which disappears once the header is written. */
    lemma ExtensionKeepsBoundaries(log: seq<Byte>, more: seq<Byte>)
      requires Scan(log).Ok? && Scan(log + more).Ok?
      ensures Scan(log).value.boundaries <= Scan(log + more).value.boundaries <==> log != [] || more == []
    {
      assert (log + more)[..|log|] == log;
      if log != [] {
        TruncationScans(log + more, |log|);
      } else {
        assert log + more == more;
        if more != [] {
          assert Scan(log).value.boundaries[0] != Scan(more).value.boundaries[0];
        }
      }
    }
  }

  /** `part` is the initial segment of `whole` made of the boundaries at or before `cut`. */
  ghost predicate Fits(part: seq<Boundary>, whole: seq<Boundary>, cut: nat) {
    && part <= whole
    && forall k :: 0 <= k < |whole| ==> (k < |part| <==> whole[k].offset <= cut)
  }
}
