/** Logical pulls (`cli/sync_server.rs`): a client that follows the server's log by repeatedly
    asking for everything after its last revision. */
module LogReplication {
  import opened Common
  import opened MvccLog
  import LogWriter

  // ----- Revisions

  datatype RevisionError = InvalidGeneration | UnsupportedGeneration | InvalidOffset

  /** `format!("g1:o{offset}")`. */
  function FormatRevision(offset: nat): string {
    "g1:o" + Decimal(offset)
  }

  /** Where the first ":o" starts at or after `from`, as `split_once` finds it. */
  function FindSeparator(s: string, from: nat): (r: Option<nat>)
    requires from <= |s|
    ensures r.Some? ==> from <= r.value && r.value + 2 <= |s|
    decreases |s| - from
  {
    if from + 2 > |s| then None
    else if s[from] == ':' && s[from + 1] == 'o' then Some(from)
    else FindSeparator(s, from + 1)
  }

  /** `parse_mvcc_revision_offset`. */
  function ParseRevision(revision: string, legacyDefault: nat): Result<nat, RevisionError> {
    if revision == [] then Ok(0)
    else
      match FindSeparator(revision, 0)
      case None => Ok(legacyDefault)
      case Some(at) =>
        var generation := revision[..at];
        if generation == [] || generation[0] != 'g' then Err(InvalidGeneration)
        else
          match ParseU64(generation[1..])
          case None => Err(InvalidGeneration)
          case Some(g) =>
            if g != 1 then Err(UnsupportedGeneration)
            else
              match ParseU64(revision[at + 2..])
              case None => Err(InvalidOffset)
              case Some(offset) => Ok(offset)
  }

  /** A revision the server hands out parses back to the offset it names. */
  lemma RevisionRoundTrip(offset: nat, legacyDefault: nat)
    requires offset < U64_LIMIT
    ensures ParseRevision(FormatRevision(offset), legacyDefault) == Ok(offset)
  {
    var r := FormatRevision(offset);
    assert FindSeparator(r, 2) == Some(2);
    assert FindSeparator(r, 1) == Some(2);
    assert FindSeparator(r, 0) == Some(2);
    assert r[..2][1..] == Decimal(1);
    ParseOfDecimal(1);
    assert r[4..] == Decimal(offset);
    ParseOfDecimal(offset);
  }

  // ----- Every other revision text

  /** A generation and an offset are set apart at `k`. */
  predicate SeparatedAt(r: string, k: nat) {
    k + 1 < |r| && r[k] == ':' && r[k + 1] == 'o'
  }

  lemma {:induction false} SeparatorIsFirst(r: string, from: nat)
    requires from <= |r|
    ensures match FindSeparator(r, from)
            case None => forall k :: k >= from ==> !SeparatedAt(r, k)
            case Some(at) => at >= from && SeparatedAt(r, at) && forall k :: from <= k < at ==> !SeparatedAt(r, k)
    decreases |r| - from
  {
    if from + 2 <= |r| && !SeparatedAt(r, from) {
      SeparatorIsFirst(r, from + 1);
    }
  }

  /** The page revisions of older responses have no separator, and stand for everything logged so far. */
  lemma LegacyRevisionParses(r: string, legacyDefault: nat)
    requires r != "" && forall k :: !SeparatedAt(r, k)
    ensures ParseRevision(r, legacyDefault) == Ok(legacyDefault)
  {
    SeparatorIsFirst(r, 0);
  }

  /** A text with a separator, by its two parts. */
  lemma SeparatedRevisionParses(generation: string, offset: string, legacyDefault: nat)
    requires forall k :: 0 <= k < |generation| ==> generation[k] != ':'
    ensures ParseRevision(generation + ":o" + offset, legacyDefault) ==
            if generation == "" || generation[0] != 'g' || ParseU64(generation[1..]).None? then Err(InvalidGeneration)
            else if ParseU64(generation[1..]) != Some(1) then Err(UnsupportedGeneration)
            else if ParseU64(offset).None? then Err(InvalidOffset)
            else Ok(ParseU64(offset).value)
  {
    hide ParseU64;
    var r, n := generation + ":o" + offset, |generation|;
    SeparatorIsFirst(r, 0);
    assert SeparatedAt(r, n);
    assert forall k :: 0 <= k < n ==> r[k] == generation[k];
    assert r[..n] == generation && r[n + 2..] == offset;
  }

  lemma NumberedRevisionParses(generation: nat, offset: nat, legacyDefault: nat)
    requires generation < U64_LIMIT && offset < U64_LIMIT
    ensures ParseRevision("g" + Decimal(generation) + ":o" + Decimal(offset), legacyDefault) ==
            if generation == 1 then Ok(offset) else Err(UnsupportedGeneration)
  {
    hide ParseU64, ParseRevision, Decimal;
    var g := "g" + Decimal(generation);
    assert g[1..] == Decimal(generation);
    SeparatedRevisionParses(g, Decimal(offset), legacyDefault);
    ParseOfDecimal(generation);
    ParseOfDecimal(offset);
  }

  /** The revisions a client can hold: the empty one it starts with, or one the server handed out. */
  predicate NamesOffset(revision: string, offset: nat) {
    revision == FormatRevision(offset) || (revision == "" && offset == 0)
  }

  lemma NamedOffsetParses(revision: string, offset: nat, legacyDefault: nat)
    requires NamesOffset(revision, offset) && offset < U64_LIMIT
    ensures ParseRevision(revision, legacyDefault) == Ok(offset)
  {
    if revision != "" {
      RevisionRoundTrip(offset, legacyDefault);
    }
  }

  // ----- One pull

  datatype PullError = Log(log: LogError) | Revision(revision: RevisionError) | FromTheFuture | NotABoundary

  /** The part of a response the client consumes; `seed` is absent when the body starts with the log header. */
  datatype Response = Response(revision: string, start: nat, seed: Option<Word>, body: seq<Byte>)

  datatype Outcome = Served(response: Response) | ReplaceBase | Failed(error: PullError)

  /** `handle_logical_pull_updates` on a log file that exists. */
  function Pull(scanner: Scanner, log: seq<Byte>, clientRevision: string): Outcome {
    match scanner.Scan(log)
    case Err(UnsupportedVersion(_)) => ReplaceBase
    case Err(e) => Failed(Log(e))
    case Ok(snapshot) =>
      match ParseRevision(clientRevision, snapshot.endOffset)
      case Err(e) => Failed(Revision(e))
      case Ok(start) =>
        var end := snapshot.endOffset;
        if start > end then Failed(FromTheFuture)
        else if start == end then Served(Response(FormatRevision(end), start, None, []))
        else
          scanner.ScanShape(log);
          if start == 0 then Served(Response(FormatRevision(end), 0, None, log[..end]))
          else
            match snapshot.CrcSeedAt(start)
            case None => Failed(NotABoundary)
            case Some(seed) => Served(Response(FormatRevision(end), start, Some(seed), log[start..end]))
  }

  /** What a served pull holds, in one shape for all three cases. */
  lemma PullServes(scanner: Scanner, log: seq<Byte>, revision: string, start: nat)
    requires scanner.Scan(log).Ok? && |log| < U64_LIMIT && NamesOffset(revision, start)
    requires start == 0 || (start <= scanner.Scan(log).value.endOffset && scanner.Scan(log).value.CrcSeedAt(start).Some?)
    ensures var s := scanner.Scan(log).value;
            && start <= s.endOffset <= |log|
            && Pull(scanner, log, revision).Served?
            && Pull(scanner, log, revision).response
               == Response(FormatRevision(s.endOffset), start,
                           if start == 0 || start == s.endOffset then None else s.CrcSeedAt(start),
                           log[start..s.endOffset])
  {
    scanner.ScanShape(log);
    var s := scanner.Scan(log).value;
    NamedOffsetParses(revision, start, s.endOffset);
    assert log[start..start] == [];
    assert log[..s.endOffset] == log[0..s.endOffset];
  }

  /** A client whose base is a page snapshot is up to date: it gets nothing, and the revision to go on from. */
  lemma PullOfLegacyRevision(scanner: Scanner, log: seq<Byte>, revision: string)
    requires scanner.Scan(log).Ok? && revision != "" && forall k :: !SeparatedAt(revision, k)
    ensures var end := scanner.Scan(log).value.endOffset;
            Pull(scanner, log, revision) == Served(Response(FormatRevision(end), end, None, []))
  {
    LegacyRevisionParses(revision, scanner.Scan(log).value.endOffset);
  }

  /** What every generation and offset gets on a log that scans: only generation 1 is served, from the start, the end or
      a transaction boundary and from nowhere else. */
  lemma PullOfNumberedRevision(scanner: Scanner, log: seq<Byte>, generation: nat, offset: nat)
    requires scanner.Scan(log).Ok? && generation < U64_LIMIT && offset < U64_LIMIT
    ensures var s := scanner.Scan(log).value;
            var r := Pull(scanner, log, "g" + Decimal(generation) + ":o" + Decimal(offset));
            && s.endOffset <= |log|
            && (generation != 1 ==> r == Failed(Revision(UnsupportedGeneration)))
            && (generation == 1 && offset > s.endOffset ==> r == Failed(FromTheFuture))
            && (generation == 1 && offset == s.endOffset ==>
                  r == Served(Response(FormatRevision(s.endOffset), offset, None, [])))
            && (generation == 1 && 0 == offset < s.endOffset ==>
                  r == Served(Response(FormatRevision(s.endOffset), 0, None, log[..s.endOffset])))
            && (generation == 1 && 0 < offset < s.endOffset && (forall b :: b in s.boundaries ==> b.offset != offset) ==>
                  r == Failed(NotABoundary))
            && forall b :: generation == 1 && 0 < offset < s.endOffset && b in s.boundaries && b.offset == offset ==>
                 r == Served(Response(FormatRevision(s.endOffset), offset, Some(b.crc), log[offset..s.endOffset]))
  {
    hide ParseRevision, Scanner.Scan, Decimal;
    var s := scanner.Scan(log).value;
    scanner.ScanShape(log);
    NumberedRevisionParses(generation, offset, s.endOffset);
    FirstAtMisses(s.boundaries, offset);
    forall b | b in s.boundaries && b.offset == offset ensures s.CrcSeedAt(offset) == Some(b.crc) {
      var i :| 0 <= i < |s.boundaries| && s.boundaries[i] == b;
      FirstAtFinds(s.boundaries, i);
    }
  }

  /** On a log whose header is not as it should be, a version the server does not know is answered with a replacement of
      the base, and every other fault fails the pull. */
  lemma PullOfForeignLog(scanner: Scanner, h: LogWriter.RawHeader, rest: seq<Byte>, revision: string)
    requires h.Fits() && LogWriter.HeaderVerdict(scanner, h).Some?
    ensures Pull(scanner, h.Bytes() + rest, revision) ==
            if h.magic == LOG_MAGIC && h.version != LOG_VERSION then ReplaceBase
            else Failed(Log(LogWriter.HeaderVerdict(scanner, h).value))
  {
    hide LogWriter.RawHeader.Bytes, LogWriter.RawHeader.Front;
    LogWriter.HeaderIsJudged(scanner, h, rest);
  }

  // ----- Runs of appends and pulls

  datatype Event = Append(bytes: seq<Byte>) | PullOnce

  /** The server's log beside the client's revision and everything it has received so far. */
  datatype World = World(log: seq<Byte>, revision: string, received: seq<Byte>)

  function Step(scanner: Scanner, w: World, e: Event): World {
    match e
    case Append(bytes) => w.(log := w.log + bytes)
    case PullOnce =>
      match Pull(scanner, w.log, w.revision)
      case Served(r) => w.(revision := r.revision, received := w.received + r.body)
      case _ => w
  }

  function Run(scanner: Scanner, events: seq<Event>): World {
    if events == [] then World([], "", [])
    else Step(scanner, Run(scanner, events[..|events| - 1]), events[|events| - 1])
  }

  /** The client holds exactly the log up to its revision, and its revision is a place the server
      can resume from: the start of the log or a boundary every successful scan still lists. */
  ghost predicate InStep(scanner: Scanner, w: World) {
    && w.received <= w.log
    && (w.received == [] || |w.received| >= LOG_HEADER_SIZE)
    && NamesOffset(w.revision, |w.received|)
    && (scanner.Scan(w.log).Ok? ==> Resumable(scanner.Scan(w.log).value, |w.received|))
  }

  ghost predicate Resumable(s: Snapshot, offset: nat) {
    offset == 0 || exists i :: 0 <= i < |s.boundaries| && s.boundaries[i].offset == offset
  }

  /** Appending bytes, whole transactions or torn ones, keeps the client in step. */
  lemma AppendKeepsInStep(scanner: Scanner, w: World, bytes: seq<Byte>)
    requires InStep(scanner, w)
    ensures InStep(scanner, Step(scanner, w, Append(bytes)))
  {
    var log' := w.log + bytes;
    assert log'[..|w.log|] == w.log;
    if scanner.Scan(log').Ok? && w.received != [] {
      scanner.TruncationScans(log', |w.log|);
      scanner.ExtensionKeepsBoundaries(w.log, bytes);
      var i :| 0 <= i < |scanner.Scan(w.log).value.boundaries|
               && scanner.Scan(w.log).value.boundaries[i].offset == |w.received|;
      assert scanner.Scan(log').value.boundaries[i].offset == |w.received|;
    }
  }

  /** Whenever the log scans, the pull of a client in step is served, and it delivers precisely the
      bytes between the client's offset and the last boundary. */
  lemma PullOfClientInStep(scanner: Scanner, w: World)
    requires InStep(scanner, w) && |w.log| < U64_LIMIT && scanner.Scan(w.log).Ok?
    ensures var end := scanner.Scan(w.log).value.endOffset;
            var w' := Step(scanner, w, PullOnce);
            && |w.received| <= end <= |w.log|
            && Pull(scanner, w.log, w.revision).Served?
            && Pull(scanner, w.log, w.revision).response.body == w.log[|w.received|..end]
            && w'.received == w.log[..end]
            && InStep(scanner, w')
  {
    hide Scanner.Scan, FormatRevision, ParseRevision;
    var s := scanner.Scan(w.log).value;
    scanner.ScanShape(w.log);
    FirstAtMisses(s.boundaries, |w.received|);
    PullServes(scanner, w.log, w.revision, |w.received|);
    assert w.log[..s.endOffset] == w.received + w.log[|w.received|..s.endOffset];
    assert s.boundaries[|s.boundaries| - 1].offset == s.endOffset;
  }

  /** Over every run of appends and pulls from the empty revision, the client stays in step. */
  lemma {:induction false} EveryRunStaysInStep(scanner: Scanner, events: seq<Event>)
    requires |Run(scanner, events).log| < U64_LIMIT
    ensures InStep(scanner, Run(scanner, events))
  {
    if events != [] {
      var before := Run(scanner, events[..|events| - 1]);
      assert |before.log| <= |Run(scanner, events).log|;
      EveryRunStaysInStep(scanner, events[..|events| - 1]);
      match events[|events| - 1]
      case Append(bytes) => AppendKeepsInStep(scanner, before, bytes);
      case PullOnce =>
        if scanner.Scan(before.log).Ok? {
          PullOfClientInStep(scanner, before);
        }
    }
  }

  /** What that means for the client: after every run its revision parses back to the number of bytes
      it holds, those bytes are the log's own prefix, and the next pull succeeds exactly when the
      log scans, so neither the boundary lookup nor the future-revision test ever rejects it. */
  lemma EveryRunMirrorsTheLog(scanner: Scanner, events: seq<Event>, legacyDefault: nat)
    requires |Run(scanner, events).log| < U64_LIMIT
    ensures var w := Run(scanner, events);
            && w.received <= w.log
            && ParseRevision(w.revision, legacyDefault) == Ok(|w.received|)
            && (Pull(scanner, w.log, w.revision).Served? <==> scanner.Scan(w.log).Ok?)
            && (scanner.Scan(w.log).Ok? ==>
                  var received := Step(scanner, w, PullOnce).received;
                  received <= w.log && |received| == scanner.Scan(w.log).value.endOffset)
  {
    hide Run, Scanner.Scan, ParseRevision;
    var w := Run(scanner, events);
    EveryRunStaysInStep(scanner, events);
    NamedOffsetParses(w.revision, |w.received|, legacyDefault);
    if scanner.Scan(w.log).Ok? {
      PullOfClientInStep(scanner, w);
    }
  }

  // ----- What the client finds in a body

  /** A boundary counted from `base` instead of from the start of the log. */
  function Relative(b: Boundary, base: nat): Boundary {
    Boundary(if b.offset >= base then b.offset - base else 0, b.crc)
  }

  function Shift(bs: seq<Boundary>, base: nat): seq<Boundary> {
    if bs == [] then [] else [Relative(bs[0], base)] + Shift(bs[1..], base)
  }

  /** A chain of frames can be resumed at any of its boundaries. */
  lemma {:induction false} ChainResumes(scanner: Scanner, log: seq<Byte>, offset: nat, crc: Word, bs: seq<Boundary>, i: nat)
    requires offset <= |log| && scanner.Chain(log, offset, crc, bs) && i < |bs|
    ensures bs[i].offset <= |log| && scanner.Chain(log, bs[i].offset, bs[i].crc, bs[i + 1..])
    decreases i
  {
    hide Scanner.ReadFrame;
    if i > 0 {
      ChainResumes(scanner, log, bs[0].offset, bs[0].crc, bs[1..], i - 1);
      assert bs[1..][i..] == bs[i + 1..];
    }
  }

  /** A whole frame reads the same inside a stretch of log that contains it. */
  lemma ReadFrameOfStretch(scanner: Scanner, log: seq<Byte>, start: nat, offset: nat, crc: Word, end: nat)
    requires start <= offset <= end <= |log|
    requires var r := scanner.ReadFrame(log, offset, crc); r.Ok? && r.value.Some? && r.value.value.offset <= end
    ensures var b := scanner.ReadFrame(log, offset, crc).value.value;
            scanner.ReadFrame(log[start..end], offset - start, crc) == Ok(Some(Boundary(b.offset - start, b.crc)))
  {
    hide LittleEndian;
    var b := scanner.ReadFrame(log, offset, crc).value.value;
    var stretch, at, trailer := log[start..end], offset - start, b.offset - start - TX_TRAILER_SIZE;
    SliceOfStretch(log, start, end, at, at + 4);
    SliceOfStretch(log, start, end, at + 4, at + 12);
    if b.offset - offset >= TX_EXT_HEADER_SIZE + TX_TRAILER_SIZE {
      SliceOfStretch(log, start, end, at + 24, at + 32);
      SliceOfStretch(log, start, end, at + 32, at + 36);
      SliceOfStretch(log, start, end, at + 36, at + 40);
    }
    SliceOfStretch(log, start, end, trailer, trailer + 4);
    SliceOfStretch(log, start, end, trailer + 4, trailer + 8);
    SliceOfStretch(log, start, end, at, trailer);
  }

  lemma SliceOfStretch(log: seq<Byte>, start: nat, end: nat, a: nat, b: nat)
    requires start <= end <= |log| && a <= b <= end - start
    ensures log[start..end][a..b] == log[start + a..start + b]
  {
    assert forall k :: 0 <= k < b - a ==> log[start..end][a..b][k] == log[start + a..start + b][k];
  }

  lemma NoFrameAtEnd(scanner: Scanner, log: seq<Byte>, crc: Word)
    ensures scanner.ReadFrame(log, |log|, crc) == Ok(None)
  {
  }

  /** A stretch of log cut out between two boundaries chains, from the CRC at its start, to the same
      boundaries and CRCs, counted from the start of the stretch. */
  lemma {:induction false} StretchChains(scanner: Scanner, log: seq<Byte>, start: nat, offset: nat, crc: Word,
                                         bs: seq<Boundary>, end: nat)
    requires start <= offset <= end <= |log| && scanner.Chain(log, offset, crc, bs) && Increasing(bs)
    requires end == if bs == [] then offset else bs[|bs| - 1].offset
    ensures scanner.Chain(log[start..end], offset - start, crc, Shift(bs, start))
    decreases |bs|
  {
    hide Scanner.ReadFrame;
    if bs == [] {
      NoFrameAtEnd(scanner, log[start..end], crc);
    } else {
      ReadFrameOfStretch(scanner, log, start, offset, crc, end);
      StretchChains(scanner, log, start, bs[0].offset, bs[0].crc, bs[1..], end);
      assert Shift(bs, start)[1..] == Shift(bs[1..], start);
    }
  }

  /** Scanning onward from any boundary of a snapshot lists the boundaries after it. */
  lemma SnapshotResumes(scanner: Scanner, log: seq<Byte>, i: nat)
    requires log != [] && scanner.Scan(log).Ok? && i < |scanner.Scan(log).value.boundaries|
    ensures var bs := scanner.Scan(log).value.boundaries;
            bs[i].offset <= |log| && scanner.Chain(log, bs[i].offset, bs[i].crc, bs[i + 1..])
  {
    hide Scanner.ScanFrom, Scanner.Chain;
    var first := scanner.First(log);
    var rest := scanner.ScanFrom(log, first.offset, first.crc).value;
    var bs := scanner.Scan(log).value.boundaries;
    assert bs == [first] + rest && bs[i + 1..] == rest[i..];
    scanner.ScanIsChain(log, first.offset, first.crc, rest);
    if i > 0 {
      ChainResumes(scanner, log, first.offset, first.crc, rest, i - 1);
    } else {
      assert rest[0..] == rest;
    }
  }

  /** The first body a client receives scans to the server's whole snapshot. */
  lemma FirstBodyRescans(scanner: Scanner, w: World)
    requires InStep(scanner, w) && |w.log| < U64_LIMIT && scanner.Scan(w.log).Ok? && w.received == []
    ensures var r := Pull(scanner, w.log, w.revision);
            && r.Served? && r.response.seed == None
            && scanner.Scan(r.response.body) == scanner.Scan(w.log)
  {
    hide Pull, ParseRevision, FormatRevision, Scanner.ScanFrom, Scanner.HeaderError;
    var s := scanner.Scan(w.log).value;
    PullServes(scanner, w.log, w.revision, 0);
    scanner.ScanShape(w.log);
    assert w.log[0..s.endOffset] == w.log[..s.endOffset];
    if s.endOffset != 0 {
      scanner.TruncationScans(w.log, s.endOffset);
      var t := scanner.Scan(w.log[..s.endOffset]).value;
      assert forall k :: 0 <= k < |s.boundaries| ==> s.boundaries[k] in s.boundaries;
      assert t.boundaries == s.boundaries;
      scanner.ScanShape(w.log[..s.endOffset]);
    }
  }

  /** Every later body scans, from the seed sent with it, to the server's boundaries and CRCs past the
      client's offset; `i` is the client's boundary. */
  lemma LaterBodyRescans(scanner: Scanner, w: World, i: nat)
    requires InStep(scanner, w) && |w.log| < U64_LIMIT && scanner.Scan(w.log).Ok? && w.received != []
    requires i < |scanner.Scan(w.log).value.boundaries|
    requires scanner.Scan(w.log).value.boundaries[i].offset == |w.received|
    ensures var bs := scanner.Scan(w.log).value.boundaries;
            var r := Pull(scanner, w.log, w.revision);
            && r.Served?
            && (r.response.body != [] ==> r.response.seed == Some(bs[i].crc))
            && scanner.ScanFrom(r.response.body, 0, bs[i].crc) == Ok(Shift(bs[i + 1..], |w.received|))
  {
    hide Scanner.Scan, Scanner.ScanFrom, Pull, FormatRevision;
    FirstAtFindsIn(scanner, w.log, i);
    PullServes(scanner, w.log, w.revision, |w.received|);
    StretchAfterBoundary(scanner, w.log, i);
  }

  lemma FirstAtFindsIn(scanner: Scanner, log: seq<Byte>, i: nat)
    requires scanner.Scan(log).Ok? && i < |scanner.Scan(log).value.boundaries|
    ensures var s := scanner.Scan(log).value;
            s.boundaries[i].offset <= s.endOffset && s.CrcSeedAt(s.boundaries[i].offset) == Some(s.boundaries[i].crc)
  {
    hide Scanner.Scan;
    scanner.ScanShape(log);
    FirstAtFinds(scanner.Scan(log).value.boundaries, i);
  }

  /** The log from any boundary on, scanned from that boundary's CRC, gives the later boundaries. */
  lemma StretchAfterBoundary(scanner: Scanner, log: seq<Byte>, i: nat)
    requires log != [] && scanner.Scan(log).Ok? && i < |scanner.Scan(log).value.boundaries|
    ensures var s := scanner.Scan(log).value;
            var b := s.boundaries[i];
            && b.offset <= s.endOffset <= |log|
            && scanner.ScanFrom(log[b.offset..s.endOffset], 0, b.crc) == Ok(Shift(s.boundaries[i + 1..], b.offset))
  {
    hide Scanner.Scan, Scanner.ScanFrom, Scanner.Chain;
    var s := scanner.Scan(log).value;
    var b, later := s.boundaries[i], s.boundaries[i + 1..];
    scanner.ScanShape(log);
    assert b in s.boundaries;
    SnapshotResumes(scanner, log, i);
    StretchChains(scanner, log, b.offset, b.offset, b.crc, later, s.endOffset);
    scanner.ScanIsChain(log[b.offset..s.endOffset], 0, b.crc, Shift(later, b.offset));
  }
}
