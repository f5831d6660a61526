/** Deciding whether typed SQL is complete (`cli/read_state_machine.rs`), after SQLite's
    `sqlite3_complete()`. */
module SqlComplete {
  import opened Common

  datatype ReadState = Invalid | Start | Normal | Explain | Create | Trigger | Semi | End

  datatype Token = TkSemi | TkWhitespace | TkOther | TkExplain | TkCreate | TkTemp | TkTrigger | TkEnd

  // ----- The automaton

  /** `ReadState::transition`. */
  function Transition(state: ReadState, token: Token): ReadState {
    match (state, token)
    case (Invalid, TkSemi) => Start
    case (Invalid, TkWhitespace) => Invalid
    case (Invalid, TkExplain) => Explain
    case (Invalid, TkCreate) => Create
    case (Invalid, _) => Normal
    case (Start, TkSemi) => Start
    case (Start, TkWhitespace) => Start
    case (Start, TkExplain) => Explain
    case (Start, TkCreate) => Create
    case (Start, _) => Normal
    case (Normal, TkSemi) => Start
    case (Normal, _) => Normal
    case (Explain, TkSemi) => Start
    case (Explain, TkWhitespace) => Explain
    case (Explain, TkOther) => Explain
    case (Explain, TkCreate) => Create
    case (Explain, _) => Normal
    case (Create, TkSemi) => Start
    case (Create, TkWhitespace) => Create
    case (Create, TkTemp) => Create
    case (Create, TkTrigger) => Trigger
    case (Create, _) => Normal
    case (Trigger, TkSemi) => Semi
    case (Trigger, _) => Trigger
    case (Semi, TkSemi) => Semi
    case (Semi, TkWhitespace) => Semi
    case (Semi, TkEnd) => End
    case (Semi, _) => Trigger
    case (End, TkSemi) => Start
    case (End, TkWhitespace) => End
    case (End, _) => Trigger
  }

  function Fold(state: ReadState, tokens: seq<Token>): ReadState
    decreases |tokens|
  {
    if tokens == [] then state else Fold(Transition(state, tokens[0]), tokens[1..])
  }

  lemma {:induction false} FoldOfConcat(state: ReadState, a: seq<Token>, b: seq<Token>)
    ensures Fold(state, a + b) == Fold(Fold(state, a), b)
    decreases |a|
  {
    if a == [] {
      assert a + b == b;
    } else {
      assert (a + b)[1..] == a[1..] + b;
      FoldOfConcat(Transition(state, a[0]), a[1..], b);
    }
  }

  // ----- The end of a trigger

  predicate IsGap(t: Token) {
    t == TkWhitespace || t == TkSemi
  }

  /** The token run `; (ws|;)* END ws* ;` ends here: a semicolon at `a`, END at `b`, a semicolon last. */
  ghost predicate ClosesTrigger(ts: seq<Token>) {
    exists a, b :: 0 <= a < b < |ts| - 1 && ClosesAt(ts, a, b)
  }

  predicate ClosesAt(ts: seq<Token>, a: nat, b: nat)
    requires a < b < |ts| - 1
  {
    && ts[a] == TkSemi && ts[b] == TkEnd && ts[|ts| - 1] == TkSemi
    && (forall k :: a < k < b ==> IsGap(ts[k]))
    && (forall k :: b < k < |ts| - 1 ==> ts[k] == TkWhitespace)
  }

  /** A semicolon with nothing but gaps after it. */
  ghost predicate EndsAfterSemi(ts: seq<Token>) {
    exists a :: 0 <= a < |ts| && ts[a] == TkSemi && forall k :: a < k < |ts| ==> IsGap(ts[k])
  }

  /** The same followed by END and nothing but whitespace. */
  ghost predicate EndsAfterEnd(ts: seq<Token>) {
    exists b :: 0 <= b < |ts| && ts[b] == TkEnd && EndsAfterSemi(ts[..b]) && forall k :: b < k < |ts| ==> ts[k] == TkWhitespace
  }

  lemma SemiExtends(ts: seq<Token>, t: Token)
    ensures EndsAfterSemi(ts + [t]) <==> t == TkSemi || (t == TkWhitespace && EndsAfterSemi(ts))
  {
    var u := ts + [t];
    if t == TkSemi {
      assert u[|ts|] == TkSemi;
    }
    if t != TkSemi && EndsAfterSemi(u) {
      var a :| 0 <= a < |u| && u[a] == TkSemi && forall k :: a < k < |u| ==> IsGap(u[k]);
      assert IsGap(u[|ts|]);
      assert forall k :: a < k < |ts| ==> IsGap(ts[k]) by {
        assert forall k :: a < k < |ts| ==> ts[k] == u[k];
      }
    }
    if t == TkWhitespace && EndsAfterSemi(ts) {
      var a :| 0 <= a < |ts| && ts[a] == TkSemi && forall k :: a < k < |ts| ==> IsGap(ts[k]);
      assert u[a] == TkSemi && forall k :: a < k < |u| ==> IsGap(u[k]);
    }
  }

  lemma EndExtends(ts: seq<Token>, t: Token)
    ensures EndsAfterEnd(ts + [t]) <==> (t == TkEnd && EndsAfterSemi(ts)) || (t == TkWhitespace && EndsAfterEnd(ts))
  {
    var u := ts + [t];
    assert u[..|ts|] == ts;
    if EndsAfterEnd(u) {
      var b :| 0 <= b < |u| && u[b] == TkEnd && EndsAfterSemi(u[..b]) && forall k :: b < k < |u| ==> u[k] == TkWhitespace;
      if b < |ts| {
        assert u[..b] == ts[..b] && u[|ts|] == TkWhitespace;
        assert forall k :: b < k < |ts| ==> ts[k] == u[k];
      }
    }
    if t == TkEnd && EndsAfterSemi(ts) {
      assert u[|ts|] == TkEnd;
    }
    if t == TkWhitespace && EndsAfterEnd(ts) {
      var b :| 0 <= b < |ts| && ts[b] == TkEnd && EndsAfterSemi(ts[..b]) && forall k :: b < k < |ts| ==> ts[k] == TkWhitespace;
      assert u[b] == TkEnd && u[..b] == ts[..b];
    }
  }

  lemma CloseExtends(ts: seq<Token>, t: Token)
    ensures ClosesTrigger(ts + [t]) <==> t == TkSemi && EndsAfterEnd(ts)
  {
    var u := ts + [t];
    if ClosesTrigger(u) {
      var a, b :| 0 <= a < b < |u| - 1 && ClosesAt(u, a, b);
      assert ts[..b][a] == TkSemi && forall k :: a < k < b ==> ts[..b][k] == u[k];
      assert EndsAfterSemi(ts[..b]);
      assert ts[b] == TkEnd && forall k :: b < k < |ts| ==> ts[k] == u[k];
    }
    if t == TkSemi && EndsAfterEnd(ts) {
      var b :| 0 <= b < |ts| && ts[b] == TkEnd && EndsAfterSemi(ts[..b]) && forall k :: b < k < |ts| ==> ts[k] == TkWhitespace;
      var a :| 0 <= a < b && ts[..b][a] == TkSemi && forall k :: a < k < b ==> IsGap(ts[..b][k]);
      assert forall k :: a < k < b ==> ts[..b][k] == u[k];
      assert ClosesAt(u, a, b);
    }
  }

  /** No proper beginning of `ts` closes the trigger. */
  ghost predicate NotClosedBefore(ts: seq<Token>) {
    forall k :: 0 <= k < |ts| ==> !ClosesTrigger(ts[..k])
  }

  /** Inside a trigger the state is a function of how the tokens end, until the closing run arrives. */
  lemma {:induction false} StateInsideTrigger(ts: seq<Token>)
    requires NotClosedBefore(ts)
    ensures Fold(Trigger, ts) == if ClosesTrigger(ts) then Start
                                 else if EndsAfterEnd(ts) then End
                                 else if EndsAfterSemi(ts) then Semi
                                 else Trigger
  {
    if ts != [] {
      var n := |ts| - 1;
      var before, t := ts[..n], ts[n];
      assert ts == before + [t];
      assert forall k :: 0 <= k < n ==> before[..k] == ts[..k];
      StateInsideTrigger(before);
      FoldOfConcat(Trigger, before, [t]);
      assert Fold(Fold(Trigger, before), [t]) == Transition(Fold(Trigger, before), t) by {
        assert [t][1..] == [];
      }
      SemiExtends(before, t);
      EndExtends(before, t);
      CloseExtends(before, t);
      if EndsAfterEnd(before) {
        NotBoth(before);
      }
    }
  }

  lemma NotBoth(ts: seq<Token>)
    requires EndsAfterEnd(ts)
    ensures !EndsAfterSemi(ts)
  {
  }

  /** From inside a trigger the input first becomes complete at the first closing run, and not otherwise. */
  lemma TriggerCompletesAtFirstClose(ts: seq<Token>)
    ensures Fold(Trigger, ts) == Start && (forall k :: 0 <= k < |ts| ==> Fold(Trigger, ts[..k]) != Start)
            <==> ClosesTrigger(ts) && NotClosedBefore(ts)
  {
    if NotClosedBefore(ts) {
      StateInsideTrigger(ts);
      forall k | 0 <= k < |ts| ensures Fold(Trigger, ts[..k]) != Start {
        assert forall j :: 0 <= j < k ==> ts[..k][..j] == ts[..j];
        StateInsideTrigger(ts[..k]);
      }
    } else {
      var k := FirstClose(ts);
      assert forall j :: 0 <= j < k ==> ts[..k][..j] == ts[..j];
      StateInsideTrigger(ts[..k]);
    }
  }

  lemma {:induction false} FirstClose(ts: seq<Token>) returns (k: nat)
    requires !NotClosedBefore(ts)
    ensures k < |ts| && ClosesTrigger(ts[..k]) && forall j :: 0 <= j < k ==> !ClosesTrigger(ts[..j])
  {
    k := 0;
    while !ClosesTrigger(ts[..k])
      invariant k < |ts|
      invariant forall j :: 0 <= j < k ==> !ClosesTrigger(ts[..j])
      decreases |ts| - k
    {
      k := k + 1;
    }
  }

  // ----- Outside triggers

  /** Nothing but whitespace. */
  predicate Blank(ts: seq<Token>) {
    forall k :: 0 <= k < |ts| ==> ts[k] == TkWhitespace
  }

  /** A statement would begin here. */
  ghost predicate AtStart(ts: seq<Token>) {
    Blank(ts) || EndsAfterSemi(ts)
  }

  /** EXPLAIN at the start of a statement, and only whitespace and other tokens since. */
  ghost predicate InExplain(ts: seq<Token>) {
    exists i :: 0 <= i < |ts| && ts[i] == TkExplain && AtStart(ts[..i]) &&
      forall k :: i < k < |ts| ==> ts[k] == TkWhitespace || ts[k] == TkOther
  }

  /** CREATE at the start of a statement or after such an EXPLAIN, and only whitespace and TEMP since. */
  ghost predicate InCreate(ts: seq<Token>) {
    exists c :: 0 <= c < |ts| && ts[c] == TkCreate && (AtStart(ts[..c]) || InExplain(ts[..c])) &&
      forall k :: c < k < |ts| ==> ts[k] == TkWhitespace || ts[k] == TkTemp
  }

  /** The last token is the TRIGGER of a CREATE TRIGGER. */
  ghost predicate EntersTrigger(ts: seq<Token>) {
    ts != [] && ts[|ts| - 1] == TkTrigger && InCreate(ts[..|ts| - 1])
  }

  /** No CREATE TRIGGER so far. */
  ghost predicate Headless(ts: seq<Token>) {
    forall k :: 0 <= k <= |ts| ==> !EntersTrigger(ts[..k])
  }

  lemma BlankExtends(ts: seq<Token>, t: Token)
    ensures Blank(ts + [t]) <==> Blank(ts) && t == TkWhitespace
  {
    var u := ts + [t];
    assert u[|ts|] == t && forall k :: 0 <= k < |ts| ==> u[k] == ts[k];
  }

  lemma ExplainExtends(ts: seq<Token>, t: Token)
    ensures InExplain(ts + [t]) <==>
            (t == TkExplain && AtStart(ts)) || ((t == TkWhitespace || t == TkOther) && InExplain(ts))
  {
    hide AtStart;
    var u := ts + [t];
    assert u[..|ts|] == ts && u[|ts|] == t;
    if InExplain(u) {
      var i :| 0 <= i < |u| && u[i] == TkExplain && AtStart(u[..i]) &&
        forall k :: i < k < |u| ==> u[k] == TkWhitespace || u[k] == TkOther;
      if i < |ts| {
        assert u[..i] == ts[..i] && forall k :: i < k < |ts| ==> ts[k] == u[k];
      }
    }
    if InExplain(ts) && (t == TkWhitespace || t == TkOther) {
      var i :| 0 <= i < |ts| && ts[i] == TkExplain && AtStart(ts[..i]) &&
        forall k :: i < k < |ts| ==> ts[k] == TkWhitespace || ts[k] == TkOther;
      assert u[i] == TkExplain && u[..i] == ts[..i];
    }
  }

  lemma CreateExtends(ts: seq<Token>, t: Token)
    ensures InCreate(ts + [t]) <==>
            (t == TkCreate && (AtStart(ts) || InExplain(ts))) || ((t == TkWhitespace || t == TkTemp) && InCreate(ts))
  {
    hide AtStart, InExplain;
    var u := ts + [t];
    assert u[..|ts|] == ts && u[|ts|] == t;
    if InCreate(u) {
      var c :| 0 <= c < |u| && u[c] == TkCreate && (AtStart(u[..c]) || InExplain(u[..c])) &&
        forall k :: c < k < |u| ==> u[k] == TkWhitespace || u[k] == TkTemp;
      if c < |ts| {
        assert u[..c] == ts[..c] && forall k :: c < k < |ts| ==> ts[k] == u[k];
      }
    }
    if InCreate(ts) && (t == TkWhitespace || t == TkTemp) {
      var c :| 0 <= c < |ts| && ts[c] == TkCreate && (AtStart(ts[..c]) || InExplain(ts[..c])) &&
        forall k :: c < k < |ts| ==> ts[k] == TkWhitespace || ts[k] == TkTemp;
      assert u[c] == TkCreate && u[..c] == ts[..c];
    }
  }

  /** These ways of ending exclude one another. */
  lemma {:induction false} Exclusive(ts: seq<Token>)
    ensures !(Blank(ts) && (EndsAfterSemi(ts) || InExplain(ts) || InCreate(ts)))
    ensures !(EndsAfterSemi(ts) && (InExplain(ts) || InCreate(ts)))
    ensures !(InExplain(ts) && InCreate(ts))
  {
    if ts != [] {
      hide Blank, EndsAfterSemi, InExplain, InCreate;
      var before, t := ts[..|ts| - 1], ts[|ts| - 1];
      assert ts == before + [t];
      Exclusive(before);
      BlankExtends(before, t);
      SemiExtends(before, t);
      ExplainExtends(before, t);
      CreateExtends(before, t);
    }
  }

  function Ends(blank: bool, semi: bool, explain: bool, create: bool): ReadState {
    if blank then Invalid else if semi then Start else if create then Create else if explain then Explain else Normal
  }

  lemma FoldOfPush(state: ReadState, ts: seq<Token>, t: Token)
    ensures Fold(state, ts + [t]) == Transition(Fold(state, ts), t)
  {
    FoldOfConcat(state, ts, [t]);
    assert [t][1..] == [];
  }

  /** While no CREATE TRIGGER has been seen, the state is a function of how the tokens end. */
  lemma {:induction false} StateOutsideTriggers(ts: seq<Token>)
    requires Headless(ts)
    ensures Fold(Invalid, ts) == Ends(Blank(ts), EndsAfterSemi(ts), InExplain(ts), InCreate(ts))
  {
    hide EndsAfterSemi, InExplain, InCreate, EntersTrigger;
    if ts == [] {
      Exclusive(ts);
    } else {
      var n := |ts| - 1;
      var before, t := ts[..n], ts[n];
      assert ts == before + [t];
      assert forall k :: 0 <= k <= n ==> before[..k] == ts[..k];
      StateOutsideTriggers(before);
      FoldOfPush(Invalid, before, t);
      Exclusive(before);
      BlankExtends(before, t);
      SemiExtends(before, t);
      ExplainExtends(before, t);
      CreateExtends(before, t);
      assert ts[..|ts|] == ts && !EntersTrigger(ts);
      NotEntering(before, t);
    }
  }

  lemma NotEntering(before: seq<Token>, t: Token)
    ensures EntersTrigger(before + [t]) <==> t == TkTrigger && InCreate(before)
  {
    assert (before + [t])[..|before|] == before;
  }

  /** An input without CREATE TRIGGER is complete exactly when it ends in a semicolon and nothing but whitespace and
      semicolons follow. */
  lemma OrdinaryInputCompletes(ts: seq<Token>)
    requires Headless(ts)
    ensures Fold(Invalid, ts) == Start <==> EndsAfterSemi(ts)
  {
    hide EndsAfterSemi, InExplain, InCreate, Blank;
    StateOutsideTriggers(ts);
    Exclusive(ts);
  }

  predicate InTrigger(state: ReadState) {
    state == Trigger || state == Semi || state == End
  }

  /** A trigger is entered exactly at the first CREATE TRIGGER. */
  lemma TriggerIsEntered(ts: seq<Token>, t: Token)
    requires Headless(ts)
    ensures !InTrigger(Fold(Invalid, ts))
    ensures Fold(Invalid, ts + [t]) == Trigger <==> EntersTrigger(ts + [t])
  {
    hide EndsAfterSemi, InExplain, InCreate, Blank;
    StateOutsideTriggers(ts);
    Exclusive(ts);
    FoldOfPush(Invalid, ts, t);
    NotEntering(ts, t);
  }

  // ----- Every input

  /** Where the first CREATE TRIGGER ends. */
  ghost function FirstHead(ts: seq<Token>): (k: nat)
    requires !Headless(ts)
    ensures 0 < k <= |ts| && EntersTrigger(ts[..k]) && Headless(ts[..k - 1])
  {
    FirstHeadExists(ts);
    var k :| 0 < k <= |ts| && EntersTrigger(ts[..k]) && Headless(ts[..k - 1]);
    k
  }

  lemma {:induction false} FirstHeadExists(ts: seq<Token>)
    requires !Headless(ts)
    ensures exists k :: 0 < k <= |ts| && EntersTrigger(ts[..k]) && Headless(ts[..k - 1])
  {
    hide EntersTrigger;
    NothingEntered();
    assert ts[..0] == [];
    var n := 0;
    while n < |ts| && !EntersTrigger(ts[..n + 1])
      invariant n <= |ts| && forall k :: 0 <= k <= n ==> !EntersTrigger(ts[..k])
    {
      n := n + 1;
    }
    if n == |ts| {
      assert false;
    }
    assert forall k :: 0 <= k <= n ==> ts[..n][..k] == ts[..k];
    assert Headless(ts[..n + 1 - 1]);
  }

  lemma NothingEntered()
    ensures !EntersTrigger([])
  {
  }

  ghost predicate Closes(ts: seq<Token>) {
    exists m :: 0 <= m <= |ts| && ClosesTrigger(ts[..m])
  }

  /** How far the first closing run reaches. */
  ghost function CloseAt(ts: seq<Token>): (m: nat)
    requires Closes(ts)
    ensures 3 <= m <= |ts| && ClosesTrigger(ts[..m]) && NotClosedBefore(ts[..m])
  {
    CloseExists(ts);
    var m :| 3 <= m <= |ts| && ClosesTrigger(ts[..m]) && NotClosedBefore(ts[..m]);
    m
  }

  lemma CloseExists(ts: seq<Token>)
    requires Closes(ts)
    ensures exists m :: 3 <= m <= |ts| && ClosesTrigger(ts[..m]) && NotClosedBefore(ts[..m])
  {
    var m :| 0 <= m <= |ts| && ClosesTrigger(ts[..m]);
    if !NotClosedBefore(ts[..m]) {
      var k := FirstClose(ts[..m]);
      assert ts[..m][..k] == ts[..k] && forall j :: 0 <= j < k ==> ts[..k][..j] == ts[..m][..j];
      m := k;
    }
    assert NotClosedBefore(ts[..m]);
    var a, b :| 0 <= a < b < m - 1 && ClosesAt(ts[..m], a, b);
  }

  /** A whole input. Up to the first CREATE TRIGGER semicolons end statements; from there the closing run does, and what
      follows it is like an input after a semicolon. */
  ghost predicate Complete(ts: seq<Token>)
    decreases |ts|
  {
    if Headless(ts) then EndsAfterSemi(ts)
    else
      var rest := ts[FirstHead(ts)..];
      Closes(rest) && Complete([TkSemi] + rest[CloseAt(rest)..])
  }

  lemma {:induction false} NeverCloses(ts: seq<Token>)
    requires !Closes(ts)
    ensures Fold(Trigger, ts) != Start
  {
    assert ts[..|ts|] == ts;
    StateInsideTrigger(ts);
  }

  /** The automaton accepts exactly the complete inputs. */
  lemma {:induction false} AcceptsExactlyComplete(ts: seq<Token>)
    ensures Fold(Invalid, ts) == Start <==> Complete(ts)
    decreases |ts|
  {
    hide EndsAfterSemi, EntersTrigger, ClosesTrigger, Fold, Transition;
    if Headless(ts) {
      OrdinaryInputCompletes(ts);
    } else {
      var k := FirstHead(ts);
      var before, head, rest := ts[..k - 1], ts[..k], ts[k..];
      assert head == before + [head[k - 1]] && ts == head + rest;
      TriggerIsEntered(before, head[k - 1]);
      FoldOfConcat(Invalid, head, rest);
      if !Closes(rest) {
        NeverCloses(rest);
      } else {
        var m := CloseAt(rest);
        assert rest == rest[..m] + rest[m..];
        FoldOfConcat(Trigger, rest[..m], rest[m..]);
        StateInsideTrigger(rest[..m]);
        AcceptsExactlyComplete([TkSemi] + rest[m..]);
        AfterSemicolon(rest[m..]);
      }
    }
  }

  lemma AfterSemicolon(ts: seq<Token>)
    ensures Fold(Invalid, [TkSemi] + ts) == Fold(Start, ts)
  {
    assert ([TkSemi] + ts)[1..] == ts;
  }

  // ----- The tokenizer

  predicate IsAlphabetic(c: char) {
    'a' <= c <= 'z' || 'A' <= c <= 'Z'
  }

  predicate IsWordChar(c: char) {
    IsAlphabetic(c) || IsDigit(c) || c == '_'
  }

  predicate IsWhitespace(c: char) {
    c == ' ' || c == '\t' || c == '\n' || c == '\r' || c == '\U{000C}'
  }

  predicate IsQuote(c: char) {
    c == '\'' || c == '"' || c == '`' || c == '['
  }

  function ClosingQuote(c: char): char {
    if c == '[' then ']' else c
  }

  function Upper(s: string): (r: string)
    ensures |r| == |s|
  {
    seq(|s|, i requires 0 <= i < |s| => if 'a' <= s[i] <= 'z' then s[i] - 'a' + 'A' else s[i])
  }

  /** `read_keyword`'s classification. */
  function Keyword(word: string): Token {
    var w := Upper(word);
    if w == "EXPLAIN" then TkExplain
    else if w == "CREATE" then TkCreate
    else if w == "TEMP" || w == "TEMPORARY" then TkTemp
    else if w == "TRIGGER" then TkTrigger
    else if w == "END" then TkEnd
    else TkOther
  }

  /** How many characters of `s` belong to the word it starts with. */
  function WordLength(s: string): (n: nat)
    ensures n <= |s|
  {
    if s == [] || !IsWordChar(s[0]) then 0 else 1 + WordLength(s[1..])
  }

  /** Characters up to and including the first `c`; `None` if there is none. */
  function Through(s: string, c: char): (r: Option<nat>)
    ensures r.Some? ==> 0 < r.value <= |s|
  {
    if s == [] then None
    else if s[0] == c then Some(1)
    else
      match Through(s[1..], c)
      case Some(n) => Some(n + 1)
      case None => None
  }

  /** Characters up to and including the first star-slash, `sawStar` telling whether a star came just before. */
  function ThroughComment(s: string, sawStar: bool): (r: Option<nat>)
    ensures r.Some? ==> 0 < r.value <= |s|
  {
    if s == [] then None
    else if sawStar && s[0] == '/' then Some(1)
    else
      match ThroughComment(s[1..], s[0] == '*')
      case Some(n) => Some(n + 1)
      case None => None
  }

  /** A stretch of input: a token, or skipped text. `closed` is false when a quote or comment ran into the end. */
  datatype Chunk = Chunk(token: Option<Token>, length: nat, closed: bool)

  function Skipped(before: nat, rest: Option<nat>, total: nat): Chunk {
    match rest
    case Some(n) => Chunk(None, before + n, true)
    case None => Chunk(None, total, false)
  }

  /** What `Tokenizer::next` consumes first. */
  function First(s: string): (r: Chunk)
    requires s != []
    ensures 0 < r.length <= |s|
    ensures !r.closed ==> r.length == |s|
  {
    var c := s[0];
    if IsQuote(c) then Skipped(1, Through(s[1..], ClosingQuote(c)), |s|)
    else if c == '-' && |s| > 1 && s[1] == '-' then Skipped(2, Through(s[2..], '\n'), |s|)
    else if c == '/' && |s| > 1 && s[1] == '*' then Skipped(1, ThroughComment(s[1..], false), |s|)
    else if c == ';' then Chunk(Some(TkSemi), 1, true)
    else if IsWhitespace(c) then Chunk(Some(TkWhitespace), 1, true)
    else if IsAlphabetic(c) || c == '_' then
      var n := WordLength(s);
      Chunk(Some(Keyword(s[..n])), n, true)
    else Chunk(Some(TkOther), 1, true)
  }

  function Chunks(s: string): seq<Chunk>
    decreases |s|
  {
    if s == [] then [] else [First(s)] + Chunks(s[First(s).length..])
  }

  function Tokens(chunks: seq<Chunk>): seq<Token> {
    if chunks == [] then []
    else (if chunks[0].token.Some? then [chunks[0].token.value] else []) + Tokens(chunks[1..])
  }

  /** The tokens of an input. */
  function Lex(s: string): seq<Token> {
    Tokens(Chunks(s))
  }

  /** `ReadState::process`. */
  function Process(state: ReadState, sql: string): ReadState {
    Fold(state, Lex(sql))
  }

  lemma {:induction false} TokensOfConcat(a: seq<Chunk>, b: seq<Chunk>)
    ensures Tokens(a + b) == Tokens(a) + Tokens(b)
  {
    if a == [] {
      assert a + b == b;
    } else {
      var head: seq<Token> := if a[0].token.Some? then [a[0].token.value] else [];
      assert (a + b)[0] == a[0] && (a + b)[1..] == a[1..] + b;
      TokensOfConcat(a[1..], b);
      assert Tokens(a + b) == head + Tokens(a[1..] + b);
      assert head + (Tokens(a[1..]) + Tokens(b)) == (head + Tokens(a[1..])) + Tokens(b);
    }
  }

  /** The tokenizer as the source has it: an iterator that eats its input. */
  class Tokenizer {
    var chars: string

    constructor (sql: string)
      ensures chars == sql
    {
      chars := sql;
    }

    /** Skips quotes and comments and returns the next token. */
    method Next() returns (r: Option<Token>)
      modifies this
      ensures r.None? ==> chars == [] && Lex(old(chars)) == []
      ensures r.Some? ==> |chars| < old(|chars|) && Lex(old(chars)) == [r.value] + Lex(chars)
    {
      while chars != []
        invariant Lex(chars) == Lex(old(chars)) && |chars| <= old(|chars|)
        decreases |chars|
      {
        var chunk := First(chars);
        ghost var before := chars;
        chars := chars[chunk.length..];
        assert Chunks(before)[1..] == Chunks(chars);
        if chunk.token.Some? {
          return chunk.token;
        }
      }
      r := None;
    }
  }

  /** `process`, driving the iterator. */
  method ProcessInput(state: ReadState, sql: string) returns (r: ReadState)
    ensures r == Process(state, sql)
  {
    var tokenizer := new Tokenizer(sql);
    r := state;
    var token := tokenizer.Next();
    while token.Some?
      invariant Process(state, sql) == Fold(r, (if token.Some? then [token.value] else []) + Lex(tokenizer.chars))
      invariant token.None? ==> tokenizer.chars == []
      decreases |tokenizer.chars|, token.Some?
    {
      assert ([token.value] + Lex(tokenizer.chars))[1..] == Lex(tokenizer.chars);
      r := Transition(r, token.value);
      token := tokenizer.Next();
    }
  }

  // ----- Where one input can be cut in two

  /** Every quote and comment of `p` is closed. */
  ghost predicate Settled(p: string) {
    forall c :: c in Chunks(p) ==> c.closed
  }

  /** The text of the last chunk. */
  function LastChunk(p: string): (r: string)
    requires p != []
    ensures r != []
    decreases |p|
  {
    var rest := p[First(p).length..];
    if rest == [] then p else LastChunk(rest)
  }

  /** The character `c` would be read together with the chunk `last`: a word going on, or a comment opening. */
  predicate Glues(last: string, c: char)
    requires last != []
  {
    || ((IsAlphabetic(last[0]) || last[0] == '_') && IsWordChar(c))
    || (last == "-" && c == '-')
    || (last == "/" && c == '*')
  }

  predicate Glued(p: string, s: string) {
    p != [] && s != [] && Glues(LastChunk(p), s[0])
  }

  lemma {:induction false} ThroughStays(s: string, t: string, c: char)
    requires Through(s, c).Some?
    ensures Through(s + t, c) == Through(s, c)
  {
    if s[0] != c {
      assert (s + t)[1..] == s[1..] + t;
      ThroughStays(s[1..], t, c);
    }
  }

  lemma {:induction false} ThroughCommentStays(s: string, t: string, sawStar: bool)
    requires ThroughComment(s, sawStar).Some?
    ensures ThroughComment(s + t, sawStar) == ThroughComment(s, sawStar)
  {
    if !(sawStar && s[0] == '/') {
      assert (s + t)[1..] == s[1..] + t;
      ThroughCommentStays(s[1..], t, s[0] == '*');
    }
  }

  lemma {:induction false} WordLengthOfConcat(s: string, t: string)
    ensures WordLength(s + t) == if WordLength(s) < |s| then WordLength(s) else |s| + WordLength(t)
  {
    if s == [] {
      assert s + t == t;
    } else if IsWordChar(s[0]) {
      assert (s + t)[1..] == s[1..] + t;
      WordLengthOfConcat(s[1..], t);
    }
  }

  /** More input does not change a closed chunk it does not glue to. */
  lemma FirstStays(p: string, t: string)
    requires p != [] && First(p).closed
    requires First(p).length == |p| && t != [] ==> !Glues(p, t[0])
    ensures First(p + t) == First(p)
  {
    var c := p[0];
    if IsQuote(c) {
      assert (p + t)[1..] == p[1..] + t;
      ThroughStays(p[1..], t, ClosingQuote(c));
    } else if c == '-' && |p| > 1 && p[1] == '-' {
      assert (p + t)[2..] == p[2..] + t;
      ThroughStays(p[2..], t, '\n');
    } else if c == '/' && |p| > 1 && p[1] == '*' {
      assert (p + t)[1..] == p[1..] + t;
      ThroughCommentStays(p[1..], t, false);
    } else if IsAlphabetic(c) || c == '_' {
      WordLengthOfConcat(p, t);
      assert (p + t)[..WordLength(p)] == p[..WordLength(p)];
    } else if |p| == 1 {
      assert p == [c];
    }
  }

  /** Input that glues to a chunk makes it longer. */
  lemma FirstGrows(p: string, t: string)
    requires p != [] && First(p).closed && First(p).length == |p| && t != [] && Glues(p, t[0])
    ensures First(p + t).length > |p|
  {
    if IsAlphabetic(p[0]) || p[0] == '_' {
      WordLengthOfConcat(p, t);
    }
  }

  lemma ChunksOf(p: string)
    ensures Chunks(p) == if p == [] then [] else [First(p)] + Chunks(p[First(p).length..])
  {
  }

  lemma LastChunkOf(p: string)
    requires p != []
    ensures LastChunk(p) == var rest := p[First(p).length..]; if rest == [] then p else LastChunk(rest)
  {
  }

  /** Settled inputs stay settled when their first chunk is taken off. */
  lemma SettledRest(p: string)
    requires Settled(p) && p != []
    ensures First(p).closed && Settled(p[First(p).length..])
  {
  }

  lemma ConsConcat(c: Chunk, a: seq<Chunk>, b: seq<Chunk>)
    ensures ([c] + a) + b == [c] + (a + b)
  {
  }

  lemma {:induction false} CutsUnglued(p: string, t: string)
    requires Settled(p) && !Glued(p, t)
    ensures Chunks(p + t) == Chunks(p) + Chunks(t)
    decreases |p|
  {
    hide First, Glues, Chunks, LastChunk, Settled;
    ChunksOf(p);
    if p == [] {
      assert p + t == t && Chunks(p) + Chunks(t) == Chunks(t);
    } else {
      var n := First(p).length;
      var rest := p[n..];
      SettledRest(p);
      LastChunkOf(p);
      assert rest == [] <==> n == |p|;
      FirstStays(p, t);
      ChunksOf(p + t);
      assert (p + t)[n..] == rest + t;
      CutsUnglued(rest, t);
      ConsConcat(First(p), Chunks(rest), Chunks(t));
    }
  }

  lemma {:induction false} CutsGlued(p: string, t: string)
    requires Settled(p) && Glued(p, t)
    ensures Chunks(p + t) != Chunks(p) + Chunks(t)
    decreases |p|
  {
    hide First, Glues, Chunks, LastChunk, Settled;
    ChunksOf(p);
    var n := First(p).length;
    var rest := p[n..];
    SettledRest(p);
    LastChunkOf(p);
    ChunksOf(p + t);
    if rest == [] {
      FirstGrows(p, t);
      assert Chunks(p + t)[0] == First(p + t) && (Chunks(p) + Chunks(t))[0] == First(p);
    } else {
      FirstStays(p, t);
      assert (p + t)[n..] == rest + t;
      CutsGlued(rest, t);
      assert Chunks(p + t)[1..] == Chunks(rest + t);
      assert (Chunks(p) + Chunks(t))[1..] == Chunks(rest) + Chunks(t);
    }
  }

  /** Exactly when nothing glues across the cut is a settled input followed by another lexed piece by piece. */
  lemma CutsCleanly(p: string, t: string)
    requires Settled(p)
    ensures Chunks(p + t) == Chunks(p) + Chunks(t) <==> !Glued(p, t)
  {
    hide Settled, Glued, Chunks;
    if Glued(p, t) {
      CutsGlued(p, t);
    } else {
      CutsUnglued(p, t);
    }
  }

  /** A quoted literal: an opening quote, anything but its closing quote, and the closing quote. */
  ghost predicate IsLiteral(literal: string) {
    && |literal| >= 2 && (literal[0], literal[|literal| - 1]) in QUOTES
    && forall k :: 1 <= k < |literal| - 1 ==> literal[k] != literal[|literal| - 1]
  }

  /** What opens a quote and what closes it. */
  const QUOTES: set<(char, char)> := {('\'', '\''), ('"', '"'), ('`', '`'), ('[', ']')}

  lemma {:induction false} ThroughLast(s: string, c: char)
    requires s != [] && s[|s| - 1] == c && forall k :: 0 <= k < |s| - 1 ==> s[k] != c
    ensures Through(s, c) == Some(|s|)
  {
    if |s| > 1 {
      ThroughLast(s[1..], c);
    }
  }

  lemma LiteralIsSkipped(literal: string)
    requires IsLiteral(literal)
    ensures Chunks(literal) == [Chunk(None, |literal|, true)] && LastChunk(literal) == literal
  {
    ThroughLast(literal[1..], ClosingQuote(literal[0]));
    assert literal[|literal|..] == [];
  }

  /** Cutting cleanly means processing one piece after the other. */
  lemma ProcessInPieces(state: ReadState, p: string, t: string)
    requires Settled(p) && !Glued(p, t)
    ensures Process(state, p + t) == Process(Process(state, p), t)
  {
    hide Chunks;
    CutsCleanly(p, t);
    TokensOfConcat(Chunks(p), Chunks(t));
    FoldOfConcat(state, Lex(p), Lex(t));
  }

  /** Inserting a closed literal anywhere the input can be cut never changes the final state, whatever the
      literal contains: semicolons, END, other quotes or comment markers. */
  lemma LiteralIsInvisible(state: ReadState, p: string, literal: string, s: string)
    requires Settled(p) && IsLiteral(literal)
    ensures Process(state, p + literal + s) == Process(Process(state, p), s)
    ensures !Glued(p, s) ==> Process(state, p + literal + s) == Process(state, p + s)
  {
    hide Fold;
    LiteralIsSkipped(literal);
    assert Settled(literal);
    assert p + literal + s == p + (literal + s);
    assert !Glued(p, literal + s);
    assert !Glued(literal, s);
    ProcessInPieces(state, p, literal + s);
    ProcessInPieces(Process(state, p), literal, s);
    NothingLexed(literal, Process(state, p));
    if !Glued(p, s) {
      ProcessInPieces(state, p, s);
    }
  }

  lemma NothingLexed(literal: string, state: ReadState)
    requires IsLiteral(literal)
    ensures Process(state, literal) == state
  {
    LiteralIsSkipped(literal);
    assert Chunks(literal)[1..] == [] && Tokens(Chunks(literal)) == [];
  }

  // ----- What texts are lexed to

  /** A spelling of a keyword in any mix of cases. */
  predicate Spells(w: string, upper: string, lower: string)
    requires |upper| == |lower|
  {
    |w| == |upper| && forall i :: 0 <= i < |w| ==> w[i] == upper[i] || w[i] == lower[i]
  }

  lemma SpellingIsUpper(w: string, upper: string, lower: string)
    requires |upper| == |lower|
    requires forall i :: 0 <= i < |upper| ==> 'A' <= upper[i] <= 'Z' && lower[i] == upper[i] - 'A' + 'a'
    ensures Upper(w) == upper <==> Spells(w, upper, lower)
  {
    if Upper(w) == upper {
      assert forall i :: 0 <= i < |w| ==> Upper(w)[i] == upper[i];
    }
  }

  /** Words are keywords by their spelling, in any mix of cases. */
  lemma KeywordsAreSpelled(w: string)
    ensures Keyword(w) == TkExplain <==> Spells(w, "EXPLAIN", "explain")
    ensures Keyword(w) == TkCreate <==> Spells(w, "CREATE", "create")
    ensures Keyword(w) == TkTemp <==> Spells(w, "TEMP", "temp") || Spells(w, "TEMPORARY", "temporary")
    ensures Keyword(w) == TkTrigger <==> Spells(w, "TRIGGER", "trigger")
    ensures Keyword(w) == TkEnd <==> Spells(w, "END", "end")
    ensures Keyword(w) != TkSemi && Keyword(w) != TkWhitespace
  {
    hide Upper, Spells;
    SpellingIsUpper(w, "EXPLAIN", "explain");
    SpellingIsUpper(w, "CREATE", "create");
    SpellingIsUpper(w, "TEMP", "temp");
    SpellingIsUpper(w, "TEMPORARY", "temporary");
    SpellingIsUpper(w, "TRIGGER", "trigger");
    SpellingIsUpper(w, "END", "end");
    assert "EXPLAIN"[0] != "TRIGGER"[0] && "CREATE"[0] == 'C' && "TEMP"[1] == 'E' && "TRIGGER"[1] == 'R';
  }

  /** ASCII letters and the underscore, by code. */
  predicate OpensWord(code: int) {
    65 <= code <= 90 || 97 <= code <= 122 || code == 95
  }

  predicate IsWord(w: string) {
    w != "" && OpensWord(w[0] as int) &&
    forall i :: 0 <= i < |w| ==> OpensWord(w[i] as int) || 48 <= w[i] as int <= 57
  }

  /** A comment to the end of its line. */
  predicate IsLineComment(c: string) {
    && |c| >= 3 && c[0] == '-' && c[1] == '-' && c[|c| - 1] == '\n'
    && forall k :: 2 <= k < |c| - 1 ==> c[k] != '\n'
  }

  /** A comment to the first star and slash; the star may be the one that opens it. */
  predicate IsBlockComment(c: string) {
    && |c| >= 3 && c[0] == '/' && c[1] == '*' && c[|c| - 2] == '*' && c[|c| - 1] == '/'
    && forall k :: 2 <= k < |c| - 1 ==> !(c[k - 1] == '*' && c[k] == '/')
  }

  predicate IsSymbol(c: char) {
    !OpensWord(c as int) && c !in {'\'', '"', '`', '['}
  }

  /** ASCII whitespace, by code. */
  const WHITESPACE: set<int> := {9, 10, 12, 13, 32}

  datatype Piece = Word(text: string) | Symbol(c: char) | Literal(text: string) | LineComment(text: string) | BlockComment(text: string)
  {
    ghost predicate Proper() {
      match this
      case Word(w) => IsWord(w)
      case Symbol(c) => IsSymbol(c)
      case Literal(l) => IsLiteral(l)
      case LineComment(c) => IsLineComment(c)
      case BlockComment(c) => IsBlockComment(c)
    }

    function Text(): string {
      if Symbol? then [c] else text
    }

    /** Quotes and comments say nothing. */
    function Says(): seq<Token> {
      match this
      case Word(w) => [Keyword(w)]
      case Symbol(c) => [if c == ';' then TkSemi else if c as int in WHITESPACE then TkWhitespace else TkOther]
      case _ => []
    }
  }

  lemma {:induction false} WholeWord(w: string)
    requires forall i :: 0 <= i < |w| ==> IsWordChar(w[i])
    ensures WordLength(w) == |w|
  {
    if w != "" {
      WholeWord(w[1..]);
    }
  }

  lemma {:induction false} WholeComment(s: string, sawStar: bool)
    requires |s| >= 1 && s[|s| - 1] == '/' && (if |s| == 1 then sawStar else s[|s| - 2] == '*')
    requires |s| > 1 ==> !(sawStar && s[0] == '/')
    requires forall k :: 1 <= k < |s| - 1 ==> !(s[k - 1] == '*' && s[k] == '/')
    ensures ThroughComment(s, sawStar) == Some(|s|)
  {
    if |s| > 1 {
      assert forall k :: 0 <= k < |s| - 1 ==> s[1..][k] == s[k + 1];
      WholeComment(s[1..], s[0] == '*');
    }
  }

  lemma WordIsOneChunk(w: string)
    requires IsWord(w)
    ensures First(w) == Chunk(Some(Keyword(w)), |w|, true)
  {
    hide Keyword;
    WholeWord(w);
    assert w[..|w|] == w;
  }

  lemma CommentIsOneChunk(c: string)
    requires IsLineComment(c) || IsBlockComment(c)
    ensures First(c) == Chunk(None, |c|, true)
  {
    if IsLineComment(c) {
      ThroughLast(c[2..], '\n');
    } else {
      assert forall k :: 0 <= k < |c| - 1 ==> c[1..][k] == c[k + 1];
      WholeComment(c[1..], false);
    }
  }

  lemma LiteralIsOneChunk(l: string)
    requires IsLiteral(l)
    ensures First(l) == Chunk(None, |l|, true)
  {
    ThroughLast(l[1..], ClosingQuote(l[0]));
  }

  lemma SymbolIsOneChunk(c: char)
    requires IsSymbol(c)
    ensures First([c]) == Chunk(Some(if c == ';' then TkSemi else if c as int in WHITESPACE then TkWhitespace else TkOther), 1, true)
  {
  }

  /** A piece alone is one closed chunk. */
  lemma PieceIsOneChunk(p: Piece)
    requires p.Proper()
    ensures p.Text() != "" && First(p.Text()).length == |p.Text()| && First(p.Text()).closed
    ensures p.Says() == if First(p.Text()).token.Some? then [First(p.Text()).token.value] else []
  {
    hide First, Keyword;
    match p
    case Word(w) => WordIsOneChunk(w);
    case Symbol(c) => SymbolIsOneChunk(c);
    case Literal(l) => LiteralIsOneChunk(l);
    case LineComment(c) => CommentIsOneChunk(c);
    case BlockComment(c) => CommentIsOneChunk(c);
  }

  function TextOf(pieces: seq<Piece>): string {
    if pieces == [] then "" else pieces[0].Text() + TextOf(pieces[1..])
  }

  function Said(pieces: seq<Piece>): seq<Token> {
    if pieces == [] then [] else pieces[0].Says() + Said(pieces[1..])
  }

  /** Proper pieces, none of which runs into the next. */
  ghost predicate Readable(pieces: seq<Piece>) {
    && (forall i :: 0 <= i < |pieces| ==> pieces[i].Proper())
    && forall i :: 0 <= i < |pieces| - 1 ==> pieces[i].Text() != "" && pieces[i + 1].Text() != "" ==>
         !Glues(pieces[i].Text(), pieces[i + 1].Text()[0])
  }

  /** A text made of words, symbols, quotes and comments is lexed to what they say, in order. */
  lemma {:induction false} PiecesAreLexed(pieces: seq<Piece>)
    requires Readable(pieces)
    ensures Lex(TextOf(pieces)) == Said(pieces)
    decreases |pieces|
  {
    hide First, Chunks, LastChunk, Glues, Piece.Says, Piece.Text, Piece.Proper;
    if pieces == [] {
      ChunksOf("");
    } else {
      var p, rest := pieces[0], pieces[1..];
      var text := p.Text();
      PieceIsOneChunk(p);
      PiecesAreLexed(rest);
      ChunksOf("");
      ChunksOf(text);
      LastChunkOf(text);
      assert text[|text|..] == "";
      if rest != [] {
        PieceIsOneChunk(rest[0]);
        assert TextOf(rest)[0] == rest[0].Text()[0];
      }
      assert Settled(text) && !Glued(text, TextOf(rest));
      CutsUnglued(text, TextOf(rest));
      TokensOfConcat(Chunks(text), Chunks(TextOf(rest)));
      assert Chunks(text)[1..] == [];
    }
  }

  /** From the text to the answer: such an input is complete exactly when what it says is. */
  lemma TextCompletes(pieces: seq<Piece>)
    requires Readable(pieces)
    ensures Process(Invalid, TextOf(pieces)) == Start <==> Complete(Said(pieces))
  {
    hide Fold, Complete, Lex, Readable;
    PiecesAreLexed(pieces);
    AcceptsExactlyComplete(Said(pieces));
  }

  /** Inside a word it can: splitting END keeps a trigger open. */
  lemma LiteralSplitsKeyword()
    ensures Settled("EN") && Glued("EN", "D;") && IsLiteral("''")
    ensures Process(Semi, "EN" + "D;") == Start
    ensures Process(Semi, "EN" + "''" + "D;") == Semi
  {
    hide Process, LastChunk;
    LexEnd();
    LexPieces();
    LiteralIsInvisible(Semi, "EN", "''", "D;");
  }

  lemma LexEnd()
    ensures Process(Semi, "EN" + "D;") == Start
  {
    assert WordLength(";") == 0 && "D;"[1..] == ";" && WordLength("D;") == 1;
    assert "ND;"[1..] == "D;" && WordLength("ND;") == 2 && "END;"[1..] == "ND;" && WordLength("END;") == 3;
    assert "END;"[..3] == "END" && "END;"[3..] == ";" && Upper("END") == "END";
    assert First("END;") == Chunk(Some(TkEnd), 3, true);
    assert Chunks("END;") == [Chunk(Some(TkEnd), 3, true)] + Chunks(";");
    LexSemicolon();
    assert Tokens(Chunks("END;")) == [TkEnd] + Tokens(Chunks(";"));
    assert "EN" + "D;" == "END;";
    assert [TkEnd, TkSemi][1..] == [TkSemi] && [TkSemi][1..] == [];
  }

  lemma LexSemicolon()
    ensures Chunks(";") == [Chunk(Some(TkSemi), 1, true)] && Lex(";") == [TkSemi]
  {
  }

  lemma LexEn()
    ensures Settled("EN") && LastChunk("EN") == "EN" && Lex("EN") == [TkOther]
  {
    assert WordLength("N") == 1 && "EN"[1..] == "N" && WordLength("EN") == 2 && "EN"[..2] == "EN" && "EN"[2..] == "";
    assert First("EN") == Chunk(Some(TkOther), 2, true) && Chunks("EN") == [First("EN")];
    assert Chunks("EN")[1..] == [];
  }

  lemma LexD()
    ensures Lex("D;") == [TkOther, TkSemi]
  {
    LexSemicolon();
    assert "D;"[1..] == ";" && WordLength("D;") == 1 && "D;"[..1] == "D";
    assert First("D;") == Chunk(Some(TkOther), 1, true) && Chunks("D;") == [First("D;")] + Chunks(";");
    assert Chunks("D;")[1..] == Chunks(";");
  }

  lemma LexPieces()
    ensures Settled("EN") && LastChunk("EN") == "EN"
    ensures Process(Process(Semi, "EN"), "D;") == Semi
  {
    hide Lex, Settled, LastChunk;
    LexEn();
    LexD();
    assert [TkOther][1..] == [] && [TkOther, TkSemi][1..] == [TkSemi] && [TkSemi][1..] == [];
  }
}
