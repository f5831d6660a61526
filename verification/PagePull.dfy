/** Page pulls (`handle_page_pull_updates` in `cli/sync_server.rs`): the newest image of every page
    written between two WAL positions, framed for the client. */
module PagePull {
  import opened Common
  import opened Framing

  type Image = seq<Byte>

  /** Pages are numbered from 1 in the WAL and from 0 on the wire. */
  datatype WalFrame = WalFrame(pageId: nat, image: Image)

  datatype Page = Page(pageId: nat, image: Image)

  type Selector = Option<set<nat>>

  predicate Selected(selector: Selector, pageId: nat) {
    selector.Some? ==> pageId in selector.value
  }

  datatype PullError = ShortRead

  // ----- The server's choice of pages

  /** Some frame in `(lo, hi]` holds the page. */
  predicate Touched(wal: seq<WalFrame>, lo: nat, hi: nat, pageId: nat)
    requires hi <= |wal|
  {
    exists k :: lo <= k < hi && wal[k].pageId == pageId
  }

  /** The frames of `(lo, hi]` worth sending, oldest first: selected pages, each in its last image. */
  function Newest(wal: seq<WalFrame>, lo: nat, hi: nat, selector: Selector): seq<Page>
    requires hi <= |wal|
    decreases hi - lo
  {
    if lo >= hi then []
    else
      var later := Newest(wal, lo + 1, hi, selector);
      var frame := wal[lo];
      if Selected(selector, frame.pageId) && !Touched(wal, lo + 1, hi, frame.pageId)
      then [Page(frame.pageId, frame.image)] + later
      else later
  }

  function Reverse(pages: seq<Page>): seq<Page> {
    if pages == [] then [] else Reverse(pages[1..]) + [pages[0]]
  }

  lemma {:induction false} ReverseOfPush(pages: seq<Page>, p: Page)
    ensures Reverse(pages + [p]) == [p] + Reverse(pages)
  {
    if pages == [] {
      assert [p][1..] == [];
    } else {
      ReverseOfPush(pages[1..], p);
      assert (pages + [p])[1..] == pages[1..] + [p];
    }
  }

  /** The scan of the WAL, newest frame first, with the set of pages already taken. `wal` is every whole frame in the
      WAL file; reading a frame past the end of the file is a short read, and the pull fails. */
  method CollectPages(wal: seq<WalFrame>, clientRevision: nat, serverRevision: nat, selector: Selector)
    returns (r: Result<seq<Page>, PullError>)
    ensures r == if clientRevision < serverRevision && |wal| < serverRevision then Err(ShortRead)
                 else if clientRevision < serverRevision then Ok(Newest(wal, clientRevision, serverRevision, selector))
                 else Ok([])
  {
    var seenPages: set<nat> := {};
    var pagesToSend: seq<Page> := [];
    if serverRevision > clientRevision {
      var frameNo := serverRevision;
      while frameNo > clientRevision
        invariant clientRevision <= frameNo <= serverRevision
        invariant |wal| < serverRevision ==> frameNo == serverRevision
        invariant serverRevision <= |wal| ==>
                    && Reverse(pagesToSend) == Newest(wal, frameNo, serverRevision, selector)
                    && forall p :: p in seenPages <==> Selected(selector, p) && Touched(wal, frameNo, serverRevision, p)
      {
        if frameNo > |wal| {
          return Err(ShortRead);
        }
        var frame := wal[frameNo - 1];
        frameNo := frameNo - 1;
        if frame.pageId in seenPages {
          continue;
        }
        if selector.Some? && frame.pageId !in selector.value {
          continue;
        }
        seenPages := seenPages + {frame.pageId};
        ReverseOfPush(pagesToSend, Page(frame.pageId, frame.image));
        pagesToSend := pagesToSend + [Page(frame.pageId, frame.image)];
      }
    }
    r := Ok(Reverse(pagesToSend));
  }

  // ----- What the pages do to the client

  type Pages = map<nat, Image>

  function Get(pages: Pages, pageId: nat): Option<Image> {
    if pageId in pages then Some(pages[pageId]) else None
  }

  /** The page state at WAL position `n`. */
  function StateAt(base: Pages, wal: seq<WalFrame>, n: nat): Pages
    requires n <= |wal|
  {
    if n == 0 then base else StateAt(base, wal, n - 1)[wal[n - 1].pageId := wal[n - 1].image]
  }

  /** The client writes the received pages one after another. */
  function Apply(client: Pages, pages: seq<Page>): Pages
    decreases |pages|
  {
    if pages == [] then client else Apply(client[pages[0].pageId := pages[0].image], pages[1..])
  }

  /** The last image of a page in `(lo, hi]`, found from the newest frame down. */
  function Latest(wal: seq<WalFrame>, lo: nat, hi: nat, pageId: nat): Option<Image>
    requires hi <= |wal|
  {
    if hi <= lo then None
    else if wal[hi - 1].pageId == pageId then Some(wal[hi - 1].image)
    else Latest(wal, lo, hi - 1, pageId)
  }

  function OrElse(a: Option<Image>, b: Option<Image>): Option<Image> {
    if a.Some? then a else b
  }

  lemma {:induction false} LatestSplits(wal: seq<WalFrame>, lo: nat, mid: nat, hi: nat, pageId: nat)
    requires lo <= mid <= hi <= |wal|
    ensures Latest(wal, lo, hi, pageId) == OrElse(Latest(wal, mid, hi, pageId), Latest(wal, lo, mid, pageId))
    ensures Latest(wal, lo, hi, pageId).Some? <==> Touched(wal, lo, hi, pageId)
    decreases hi
  {
    if lo < hi {
      LatestSplits(wal, lo, if mid == hi then mid - 1 else mid, hi - 1, pageId);
    }
  }

  lemma {:induction false} StateMoves(base: Pages, wal: seq<WalFrame>, lo: nat, hi: nat, pageId: nat)
    requires lo <= hi <= |wal|
    ensures Get(StateAt(base, wal, hi), pageId) == OrElse(Latest(wal, lo, hi, pageId), Get(StateAt(base, wal, lo), pageId))
    decreases hi
  {
    if lo < hi {
      StateMoves(base, wal, lo, hi - 1, pageId);
    }
  }

  /** No page is listed twice. */
  ghost predicate Distinct(pages: seq<Page>) {
    forall i, j :: 0 <= i < j < |pages| ==> pages[i].pageId != pages[j].pageId
  }

  /** Sent pages are distinct and selected, and applying them overwrites every selected page that was
      touched with its latest image and nothing else. */
  lemma {:induction false} NewestApplies(wal: seq<WalFrame>, lo: nat, hi: nat, selector: Selector, client: Pages, pageId: nat)
    requires hi <= |wal|
    ensures Get(Apply(client, Newest(wal, lo, hi, selector)), pageId)
            == OrElse(if Selected(selector, pageId) then Latest(wal, lo, hi, pageId) else None, Get(client, pageId))
    decreases hi - lo
  {
    if lo < hi {
      var frame := wal[lo];
      LatestSplits(wal, lo, lo + 1, hi, pageId);
      LatestSplits(wal, lo + 1, lo + 1, hi, frame.pageId);
      assert Latest(wal, lo, lo + 1, pageId) == if frame.pageId == pageId then Some(frame.image) else None;
      var later := Newest(wal, lo + 1, hi, selector);
      var client' := client[frame.pageId := frame.image];
      NewestApplies(wal, lo + 1, hi, selector, client', pageId);
      NewestApplies(wal, lo + 1, hi, selector, client, pageId);
      assert ([Page(frame.pageId, frame.image)] + later)[1..] == later;
    }
  }

  /** A pull from `c` to `s` takes a client at `c` to the server's state at `s` on the selected pages and
      leaves the others at `c`. */
  lemma PullReachesServerState(base: Pages, wal: seq<WalFrame>, c: nat, s: nat, selector: Selector, pageId: nat)
    requires c <= s <= |wal|
    ensures Get(Apply(StateAt(base, wal, c), Newest(wal, c, s, selector)), pageId)
            == Get(StateAt(base, wal, if Selected(selector, pageId) then s else c), pageId)
  {
    NewestApplies(wal, c, s, selector, StateAt(base, wal, c), pageId);
    StateMoves(base, wal, c, s, pageId);
  }

  /** Without a selector the client ends in the server's state itself. */
  lemma FullPullReachesServerState(base: Pages, wal: seq<WalFrame>, c: nat, s: nat)
    requires c <= s <= |wal|
    ensures Apply(StateAt(base, wal, c), Newest(wal, c, s, None)) == StateAt(base, wal, s)
  {
    var a, b := Apply(StateAt(base, wal, c), Newest(wal, c, s, None)), StateAt(base, wal, s);
    forall p: nat ensures Get(a, p) == Get(b, p) {
      PullReachesServerState(base, wal, c, s, None, p);
    }
    SameLookups(a, b);
  }

  lemma SameLookups(a: Pages, b: Pages)
    requires forall p: nat :: Get(a, p) == Get(b, p)
    ensures a == b
  {
    forall p: nat ensures p in a <==> p in b {
      assert Get(a, p) == Get(b, p);
    }
    forall p: nat | p in a ensures a[p] == b[p] {
      assert Get(a, p) == Get(b, p);
    }
  }

  /** Pulling in two stages is pulling in one, from any client state and with any selector. */
  lemma PullsCompose(wal: seq<WalFrame>, c: nat, m: nat, s: nat, selector: Selector, client: Pages)
    requires c <= m <= s <= |wal|
    ensures Apply(Apply(client, Newest(wal, c, m, selector)), Newest(wal, m, s, selector))
            == Apply(client, Newest(wal, c, s, selector))
  {
    var half := Apply(client, Newest(wal, c, m, selector));
    var a, b := Apply(half, Newest(wal, m, s, selector)), Apply(client, Newest(wal, c, s, selector));
    forall p: nat ensures Get(a, p) == Get(b, p) {
      NewestApplies(wal, c, m, selector, client, p);
      NewestApplies(wal, m, s, selector, half, p);
      NewestApplies(wal, c, s, selector, client, p);
      LatestSplits(wal, c, m, s, p);
    }
    SameLookups(a, b);
  }

  /** The frame numbers the sent pages come from: increasing, one per page, each the last of its page
      in the range, and none missing. */
  function NewestFrames(wal: seq<WalFrame>, lo: nat, hi: nat, selector: Selector): seq<nat>
    requires hi <= |wal|
    decreases hi - lo
  {
    if lo >= hi then []
    else
      var later := NewestFrames(wal, lo + 1, hi, selector);
      if Selected(selector, wal[lo].pageId) && !Touched(wal, lo + 1, hi, wal[lo].pageId) then [lo] + later else later
  }

  ghost predicate LastOfItsPage(wal: seq<WalFrame>, lo: nat, hi: nat, selector: Selector, k: nat)
    requires hi <= |wal|
  {
    && lo <= k < hi && Selected(selector, wal[k].pageId)
    && forall j :: k < j < hi ==> wal[j].pageId != wal[k].pageId
  }

  ghost predicate Ascending(ks: seq<nat>) {
    forall i, j :: 0 <= i < j < |ks| ==> ks[i] < ks[j]
  }

  lemma {:induction false} FramesAscend(wal: seq<WalFrame>, lo: nat, hi: nat, selector: Selector)
    requires hi <= |wal|
    ensures var ks := NewestFrames(wal, lo, hi, selector);
            Ascending(ks) && forall i :: 0 <= i < |ks| ==> lo <= ks[i] < hi
    decreases hi - lo
  {
    if lo < hi {
      FramesAscend(wal, lo + 1, hi, selector);
    }
  }

  lemma {:induction false} FramesComplete(wal: seq<WalFrame>, lo: nat, hi: nat, selector: Selector, k: nat)
    requires hi <= |wal|
    ensures k in NewestFrames(wal, lo, hi, selector) <==> LastOfItsPage(wal, lo, hi, selector, k)
    decreases hi - lo
  {
    if lo < hi {
      FramesComplete(wal, lo + 1, hi, selector, k);
      assert Touched(wal, lo + 1, hi, wal[lo].pageId) <==> exists j :: lo < j < hi && wal[j].pageId == wal[lo].pageId;
    }
  }

  lemma {:induction false} PagesOfFrames(wal: seq<WalFrame>, lo: nat, hi: nat, selector: Selector)
    requires hi <= |wal|
    ensures var ks, pages := NewestFrames(wal, lo, hi, selector), Newest(wal, lo, hi, selector);
            && |pages| == |ks|
            && forall i :: 0 <= i < |ks| ==> ks[i] < |wal| && pages[i] == Page(wal[ks[i]].pageId, wal[ks[i]].image)
    decreases hi - lo
  {
    if lo < hi {
      PagesOfFrames(wal, lo + 1, hi, selector);
    }
  }

  /** Each page is sent at most once, in the order of the frames that wrote it last. */
  lemma SentOnceInFrameOrder(wal: seq<WalFrame>, lo: nat, hi: nat, selector: Selector)
    requires hi <= |wal|
    ensures var ks, pages := NewestFrames(wal, lo, hi, selector), Newest(wal, lo, hi, selector);
            && Ascending(ks) && |pages| == |ks| && Distinct(pages)
            && (forall k :: k in ks <==> LastOfItsPage(wal, lo, hi, selector, k))
            && forall i :: 0 <= i < |ks| ==> ks[i] < |wal| && pages[i] == Page(wal[ks[i]].pageId, wal[ks[i]].image)
  {
    hide Newest, NewestFrames;
    var ks, pages := NewestFrames(wal, lo, hi, selector), Newest(wal, lo, hi, selector);
    FramesAscend(wal, lo, hi, selector);
    PagesOfFrames(wal, lo, hi, selector);
    forall k ensures k in ks <==> LastOfItsPage(wal, lo, hi, selector, k) {
      FramesComplete(wal, lo, hi, selector, k);
    }
    forall i, j | 0 <= i < j < |pages| ensures pages[i].pageId != pages[j].pageId {
      assert ks[i] in ks && ks[i] < ks[j];
    }
  }

  // ----- The response body

  const U64_BUDGET: nat := 10

  /** `PageData` as prost writes it: default values are left out. */
  function EncodePage(p: Page): Message {
    (if p.pageId == 0 then [] else [0x08] + Varint(p.pageId))
    + (if p.image == [] then [] else [0x12] + Delimited(p.image))
  }

  /** Reads the two fields of `PageData`, in any order, later ones winning. */
  function DecodePage(m: Message, acc: Page): Option<Page>
    decreases |m|
  {
    if m == [] then Some(acc)
    else if m[0] == 0x08 then
      match ReadVarint(m[1..], U64_BUDGET)
      case Complete(id, size) => DecodePage(m[1 + size..], acc.(pageId := id))
      case _ => None
    else if m[0] == 0x12 then
      match ReadVarint(m[1..], U64_BUDGET)
      case Complete(length, size) =>
        if 1 + size + length > |m| then None
        else DecodePage(m[1 + size + length..], acc.(image := m[1 + size..1 + size + length]))
      case _ => None
    else None
  }

  const NO_PAGE: Page := Page(0, [])

  lemma TenBytesHoldU64(n: nat)
    requires n < U64_LIMIT
    ensures n < Pow128(U64_BUDGET)
  {
  }

  lemma ImageRoundTrip(image: Image, acc: Page)
    requires 0 < |image| < U64_LIMIT
    ensures DecodePage([0x12] + Delimited(image), acc) == Some(acc.(image := image))
  {
    hide Varint, ReadVarint, Pow128;
    var m := [0x12] + Delimited(image);
    TenBytesHoldU64(|image|);
    ReadsWhatWasWritten(|image|, image, U64_BUDGET);
    var size := |Varint(|image|)|;
    assert m[1..] == Varint(|image|) + image;
    assert m[1 + size..1 + size + |image|] == image;
    assert m[1 + size + |image|..] == [];
  }

  /** A page message decodes to the page it was made from. */
  lemma PageRoundTrip(p: Page)
    requires p.pageId < U64_LIMIT && |p.image| < U64_LIMIT
    ensures DecodePage(EncodePage(p), NO_PAGE) == Some(p)
  {
    hide Varint, ReadVarint, Pow128;
    var tail: Message := if p.image == [] then [] else [0x12] + Delimited(p.image);
    if p.image != [] {
      ImageRoundTrip(p.image, Page(p.pageId, []));
    }
    if p.pageId == 0 {
      assert EncodePage(p) == tail;
    } else {
      var m := EncodePage(p);
      TenBytesHoldU64(p.pageId);
      ReadsWhatWasWritten(p.pageId, tail, U64_BUDGET);
      assert m[1..] == Varint(p.pageId) + tail;
      assert m[1 + |Varint(p.pageId)|..] == tail;
    }
  }

  function Encoded(pages: seq<Page>): seq<Message> {
    if pages == [] then [] else [EncodePage(pages[0])] + Encoded(pages[1..])
  }

  function Decoded(messages: seq<Message>): Option<seq<Page>> {
    if messages == [] then Some([])
    else
      match (DecodePage(messages[0], NO_PAGE), Decoded(messages[1..]))
      case (Some(p), Some(rest)) => Some([p] + rest)
      case _ => None
  }

  /** The body the handler assembles: the header message, then every page. */
  method BuildResponse(header: Message, pages: seq<Page>) returns (body: seq<Byte>)
    ensures body == Stream([header] + Encoded(pages))
  {
    hide EncodePage, Delimited;
    body := EncodeLengthDelimited([], header);
    var i := 0;
    assert pages[0..] == pages;
    while i < |pages|
      invariant 0 <= i <= |pages|
      invariant body + Stream(Encoded(pages[i..])) == Delimited(header) + Stream(Encoded(pages))
    {
      var sent := EncodeLengthDelimited(body, EncodePage(pages[i]));
      assert pages[i..][1..] == pages[i + 1..];
      StreamOfCons(EncodePage(pages[i]), Encoded(pages[i + 1..]));
      assert sent + Stream(Encoded(pages[i + 1..])) == body + Stream(Encoded(pages[i..]));
      body := sent;
      i := i + 1;
    }
    assert body + [] == body;
    StreamOfCons(header, Encoded(pages));
  }

  datatype Request = Request(clientRevision: string, serverRevision: string, selector: Selector)

  /** A revision that is absent or unreadable stands for the default. */
  function RevisionOr(revision: string, default: nat): nat {
    match ParseU64(revision)
    case Some(n) => n
    case None => default
  }

  /** The answer to a request: the client defaults to frame 0 and the server to its last valid frame, behind which the
      file may still hold older ones. */
  function Answer(wal: seq<WalFrame>, maxFrame: nat, request: Request, header: Message): Result<seq<Byte>, PullError> {
    var c := RevisionOr(request.clientRevision, 0);
    var s := RevisionOr(request.serverRevision, maxFrame);
    if c >= s then Ok(Stream([header]))
    else if |wal| < s then Err(ShortRead)
    else Ok(Stream([header] + Encoded(Newest(wal, c, s, request.selector))))
  }

  /** `handle_page_pull_updates`. */
  method HandlePagePull(wal: seq<WalFrame>, maxFrame: nat, request: Request, header: Message)
    returns (r: Result<seq<Byte>, PullError>)
    requires maxFrame <= |wal|
    ensures r == Answer(wal, maxFrame, request, header)
  {
    var serverRevision := if request.serverRevision == "" then maxFrame else RevisionOr(request.serverRevision, maxFrame);
    var clientRevision := if request.clientRevision == "" then 0 else RevisionOr(request.clientRevision, 0);
    var pages := CollectPages(wal, clientRevision, serverRevision, request.selector);
    if pages.Err? {
      return Err(pages.error);
    }
    var body := BuildResponse(header, pages.value);
    assert [header] + [] == [header];
    r := Ok(body);
  }

  /** A revision is read as the number it shows; one that is absent or shows no number stands for the default. */
  lemma RevisionIsRead(n: nat, default: nat, junk: string, k: nat)
    requires n < U64_LIMIT
    requires junk == "" || junk == "+" || (k < |junk| && !IsDigit(junk[k]) && (k > 0 || junk[k] != '+'))
    ensures RevisionOr(Decimal(n), default) == n && RevisionOr("+" + Decimal(n), default) == n
    ensures RevisionOr(junk, default) == default
  {
    ParseOfDecimal(n);
    ParseOfPlus(n);
    ParseOfJunk(junk, k);
  }

  lemma StreamOfCons(m: Message, rest: seq<Message>)
    ensures Stream([m] + rest) == Delimited(m) + Stream(rest)
  {
  }

  lemma {:induction false} PagesRoundTrip(pages: seq<Page>)
    requires forall p :: p in pages ==> p.pageId < U64_LIMIT && |EncodePage(p)| < 0x8000_0000_0000_0000
    ensures Decoded(Encoded(pages)) == Some(pages)
    ensures forall m :: m in Encoded(pages) ==> |m| < 0x8000_0000_0000_0000
  {
    if pages != [] {
      assert pages[0] in pages;
      PageRoundTrip(pages[0]);
      PagesRoundTrip(pages[1..]);
      assert Encoded(pages)[1..] == Encoded(pages[1..]);
      assert pages == [pages[0]] + pages[1..];
    }
  }

  /** From the server's WAL to the client's pages through the bytes on the wire: splitting the response
      into messages, decoding them and applying them moves the selected pages of a client at `c` to the
      server's state at `s` and leaves the others. */
  lemma ResponseUpdatesClient(base: Pages, wal: seq<WalFrame>, c: nat, s: nat, selector: Selector, header: Message)
    requires c <= s <= |wal| && |header| < 0x8000_0000_0000_0000
    requires forall p :: p in Newest(wal, c, s, selector) ==>
               p.pageId < U64_LIMIT && |EncodePage(p)| < 0x8000_0000_0000_0000
    ensures var received := Messages(Stream([header] + Encoded(Newest(wal, c, s, selector))));
            && received.Ok? && received.value != [] && received.value[0] == header
            && Decoded(received.value[1..]).Some?
            && var client := Apply(StateAt(base, wal, c), Decoded(received.value[1..]).value);
            && (forall p: nat :: Get(client, p) == Get(StateAt(base, wal, if Selected(selector, p) then s else c), p))
            && (selector.None? ==> client == StateAt(base, wal, s))
  {
    hide Newest, Apply, Decoded, Encoded, Messages, Stream, EncodePage, Get, StateAt, Selected;
    var pages := Newest(wal, c, s, selector);
    PagesRoundTrip(pages);
    StreamRoundTrip([header] + Encoded(pages));
    assert ([header] + Encoded(pages))[1..] == Encoded(pages);
    forall p: nat
      ensures Get(Apply(StateAt(base, wal, c), pages), p) == Get(StateAt(base, wal, if Selected(selector, p) then s else c), p)
    {
      PullReachesServerState(base, wal, c, s, selector, p);
    }
    FullPullReachesServerState(base, wal, c, s);
  }

  /** From the request to the client's pages. A client at frame `c` asks for frame `s`, or for the last valid one by not
      naming it: the bytes it gets, split, decoded and applied, bring its selected pages to the server's state there. A
      client already there gets no page, and a frame past the end of the file fails the request. */
  lemma RequestUpdatesClient(base: Pages, wal: seq<WalFrame>, maxFrame: nat, c: nat, s: nat, named: bool,
                             selector: Selector, header: Message)
    requires maxFrame <= |wal| && c < U64_LIMIT && s < U64_LIMIT && (named || s == maxFrame)
    requires |header| < 0x8000_0000_0000_0000
    requires forall f :: f in wal ==> f.pageId < U64_LIMIT && |EncodePage(Page(f.pageId, f.image))| < 0x8000_0000_0000_0000
    ensures var r := Answer(wal, maxFrame, Request(Decimal(c), if named then Decimal(s) else "", selector), header);
            && (c < s && |wal| < s ==> r == Err(ShortRead))
            && (c >= s ==> r.Ok? && Messages(r.value) == Ok([header]))
            && (c <= s <= |wal| ==>
                  && r.Ok? && Messages(r.value).Ok? && Messages(r.value).value != []
                  && Messages(r.value).value[0] == header && Decoded(Messages(r.value).value[1..]).Some?
                  && var client := Apply(StateAt(base, wal, c), Decoded(Messages(r.value).value[1..]).value);
                  && (forall p: nat ::
                        Get(client, p) == Get(StateAt(base, wal, if Selected(selector, p) then s else c), p))
                  && (selector.None? ==> client == StateAt(base, wal, s)))
  {
    hide Newest, Apply, Decoded, Encoded, Messages, Stream, EncodePage, Get, StateAt, Selected, RevisionOr, Decimal;
    RevisionIsRead(c, 0, "", 0);
    RevisionIsRead(s, maxFrame, "", 0);
    StreamRoundTrip([header]);
    if c <= s <= |wal| {
      SentPagesFit(wal, c, s, selector);
      ResponseUpdatesClient(base, wal, c, s, selector, header);
      NothingNew(wal, s, selector, header);
    }
  }

  lemma NothingNew(wal: seq<WalFrame>, s: nat, selector: Selector, header: Message)
    requires s <= |wal|
    ensures [header] + Encoded(Newest(wal, s, s, selector)) == [header]
  {
  }

  lemma {:induction false} SentPagesFit(wal: seq<WalFrame>, lo: nat, hi: nat, selector: Selector)
    requires hi <= |wal|
    requires forall f :: f in wal ==> f.pageId < U64_LIMIT && |EncodePage(Page(f.pageId, f.image))| < 0x8000_0000_0000_0000
    ensures forall p :: p in Newest(wal, lo, hi, selector) ==>
              p.pageId < U64_LIMIT && |EncodePage(p)| < 0x8000_0000_0000_0000
    decreases hi - lo
  {
    hide EncodePage;
    if lo < hi {
      SentPagesFit(wal, lo + 1, hi, selector);
      assert wal[lo] in wal;
    }
  }
}
