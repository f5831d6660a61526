/** Bind-parameter registration (`core/parameters.rs`): hash maps kept beside the parameter list, against a scan of
    that list and of the markers a statement was prepared with. */
module Parameters {
  import opened Common

  /** A one-based parameter index. */
  type Index = i: nat | 1 <= i witness 1

  datatype Parameter = Indexed(index: Index) | Named(name: string, index: Index)

  /** The fields of the source's `Parameters`. */
  datatype Tables = Tables(nextIndex: Index, list: seq<Parameter>, present: map<Index, bool>,
                           nameToIndex: map<string, Index>, indexToName: map<Index, string>)

  // ----- Lookups

  predicate HasIndex(t: Tables, i: Index) {
    i in t.present
  }

  predicate IsIndexed(t: Tables, i: Index) {
    i in t.present && i !in t.indexToName
  }

  function NameOf(t: Tables, i: Index): Option<string> {
    if i in t.indexToName then Some(t.indexToName[i])
    else if i in t.present && t.present[i] then Some("?" + Decimal(i))
    else None
  }

  /** `NonZero<usize>` read from text. */
  function ParseIndex(s: string): Option<Index> {
    match ParseU64(s)
    case Some(n) => if n == 0 then None else Some(n)
    case None => None
  }

  function IndexOf(t: Tables, name: string): Option<Index> {
    if name in t.nameToIndex then Some(t.nameToIndex[name])
    else if name == [] || name[0] != '?' then None
    else
      match ParseIndex(name[1..])
      case Some(i) => if i in t.present && t.present[i] then Some(i) else None
      case None => None
  }

  // ----- Registration

  function Reserve(t: Tables, i: Index): Tables {
    if i >= t.nextIndex then t.(nextIndex := i + 1) else t
  }

  function Without(list: seq<Parameter>, i: Index): seq<Parameter> {
    if list == [] then []
    else if list[0].index == i then Without(list[1..], i)
    else [list[0]] + Without(list[1..], i)
  }

  function PushPositional(t: Tables, i: Index, numbered: bool): Tables {
    var r := Reserve(t, i);
    var bit := numbered && i !in t.indexToName;
    if i !in t.present then r.(present := r.present[i := bit], list := r.list + [Indexed(i)])
    else r.(present := r.present[i := bit || t.present[i]])
  }

  function PushNamedAt(t: Tables, name: string, i: Index): Tables {
    var r := Reserve(t, i);
    if i in t.indexToName then r
    else
      r.(present := r.present[i := false],
         nameToIndex := if name in r.nameToIndex then r.nameToIndex else r.nameToIndex[name := i],
         indexToName := r.indexToName[i := name],
         list := (if i in r.present then Without(r.list, i) else r.list) + [Named(name, i)])
  }

  predicate IsName(text: string) {
    text != [] && text[0] in {'$', ':', '@', '#'}
  }

  /** The calls that register a marker. The parser hands `Push` a name or a positive number. */
  datatype Call = Push(text: string) | PushIndex(index: Index) | PushNumbered(index: Index)
                | PushNamed(name: string, index: Index)
  {
    predicate Parsed() {
      this.Push? && !IsName(text) ==> ParseIndex(text).Some?
    }
  }

  /** The index a call returns. */
  function Target(t: Tables, call: Call): Index
    requires call.Parsed()
  {
    match call
    case Push(text) =>
      if !IsName(text) then ParseIndex(text).value
      else if text in t.nameToIndex then t.nameToIndex[text]
      else t.nextIndex
    case PushIndex(i) => i
    case PushNumbered(i) => i
    case PushNamed(_, i) => i
  }

  function Step(t: Tables, call: Call): Tables
    requires call.Parsed()
  {
    match call
    case Push(text) =>
      if !IsName(text) then PushPositional(t, ParseIndex(text).value, false)
      else if text in t.nameToIndex then t
      else PushNamedAt(t.(nextIndex := t.nextIndex + 1), text, t.nextIndex)
    case PushIndex(i) => PushPositional(t, i, false)
    case PushNumbered(i) => PushPositional(t, i, true)
    case PushNamed(name, i) => PushNamedAt(t, name, i)
  }

  const EMPTY := Tables(1, [], map[], map[], map[])

  type Calls = calls: seq<Call> | forall k :: 0 <= k < |calls| ==> calls[k].Parsed()

  function Run(calls: Calls): Tables {
    if calls == [] then EMPTY else Step(Run(calls[..|calls| - 1]), calls[|calls| - 1])
  }

  class Registry {
    var nextIndex: Index
    var list: seq<Parameter>
    var present: map<Index, bool>
    var nameToIndex: map<string, Index>
    var indexToName: map<Index, string>

    function View(): Tables
      reads this
    {
      Tables(nextIndex, list, present, nameToIndex, indexToName)
    }

    constructor ()
      ensures View() == EMPTY
    {
      nextIndex, list, present, nameToIndex, indexToName := 1, [], map[], map[], map[];
    }

    method PushPositionalMarker(index: Index, numbered: bool) returns (r: Index)
      modifies this
      ensures View() == PushPositional(old(View()), index, numbered) && r == index
    {
      if index >= nextIndex {
        nextIndex := index + 1;
      }
      var bit := numbered && index !in indexToName;
      var before := present;
      present := present[index := bit];
      if index !in before {
        list := list + [Indexed(index)];
      } else if before[index] && !bit {
        present := present[index := true];
      }
      return index;
    }

    method PushNamedMarker(name: string, index: Index) returns (r: Index)
      modifies this
      ensures View() == PushNamedAt(old(View()), name, index) && r == index
    {
      if index >= nextIndex {
        nextIndex := index + 1;
      }
      if index in indexToName {
        return index;
      }
      if index in present {
        list := Without(list, index);
      }
      present := present[index := false];
      if name !in nameToIndex {
        nameToIndex := nameToIndex[name := index];
      }
      indexToName := indexToName[index := name];
      list := list + [Named(name, index)];
      return index;
    }

    method PushMarker(text: string) returns (r: Index)
      requires Push(text).Parsed()
      modifies this
      ensures View() == Step(old(View()), Push(text)) && r == Target(old(View()), Push(text))
    {
      if IsName(text) {
        if text in nameToIndex {
          return nameToIndex[text];
        }
        var index := nextIndex;
        nextIndex := nextIndex + 1;
        r := PushNamedMarker(text, index);
      } else {
        r := PushPositionalMarker(ParseIndex(text).value, false);
      }
    }
  }

  // ----- The reference: scans

  /** The entry of the list at an index. */
  function Find(list: seq<Parameter>, i: Index): (r: Option<Parameter>)
    ensures r.Some? ==> r.value.index == i
  {
    if list == [] then None
    else if list[0].index == i then Some(list[0])
    else Find(list[1..], i)
  }

  /** The index of the first entry with a name. */
  function FindName(list: seq<Parameter>, name: string): Option<Index> {
    if list == [] then None
    else if list[0].Named? && list[0].name == name then Some(list[0].index)
    else FindName(list[1..], name)
  }

  predicate NoDuplicates(list: seq<Parameter>) {
    forall j, k :: 0 <= j < k < |list| ==> list[j].index != list[k].index
  }

  /** A call as an occurrence in the statement: how an index was spelled. */
  datatype Spelling = Bare | Number | Name(name: string)
  datatype Occurrence = Occurrence(index: Index, spelling: Spelling)

  function Spelled(t: Tables, call: Call): Occurrence
    requires call.Parsed()
  {
    match call
    case Push(text) => Occurrence(Target(t, call), if IsName(text) then Name(text) else Bare)
    case PushIndex(i) => Occurrence(i, Bare)
    case PushNumbered(i) => Occurrence(i, Number)
    case PushNamed(name, i) => Occurrence(i, Name(name))
  }

  function Occurrences(calls: Calls): seq<Occurrence> {
    if calls == [] then []
    else
      var before := calls[..|calls| - 1];
      Occurrences(before) + [Spelled(Run(before), calls[|calls| - 1])]
  }

  /** The first name an index was given. */
  function FirstName(seen: seq<Occurrence>, i: Index): Option<string> {
    if seen == [] then None
    else
      var last := seen[|seen| - 1];
      match FirstName(seen[..|seen| - 1], i)
      case Some(name) => Some(name)
      case None => if last.index == i && last.spelling.Name? then Some(last.spelling.name) else None
  }

  predicate Occurs(seen: seq<Occurrence>, i: Index) {
    exists k :: 0 <= k < |seen| && seen[k].index == i
  }

  predicate OccursNumbered(seen: seq<Occurrence>, i: Index) {
    exists k :: 0 <= k < |seen| && seen[k] == Occurrence(i, Number)
  }

  /** The entry the statement's occurrences call for. */
  function Entry(seen: seq<Occurrence>, i: Index): Option<Parameter> {
    match FirstName(seen, i)
    case Some(name) => Some(Named(name, i))
    case None => if Occurs(seen, i) then Some(Indexed(i)) else None
  }

  // ----- The maps answer as the scans do

  /** Everything the maps say of one index. */
  predicate IndexAgrees(t: Tables, seen: seq<Occurrence>, i: Index) {
    && Find(t.list, i) == Entry(seen, i)
    && (i in t.present) == Occurs(seen, i)
    && (i in t.present ==> t.present[i] == (OccursNumbered(seen, i) && FirstName(seen, i).None?))
    && (i in t.indexToName) == FirstName(seen, i).Some?
    && (i in t.indexToName ==> t.indexToName[i] == FirstName(seen, i).value)
    && (i in t.present ==> i < t.nextIndex)
  }

  predicate NameAgrees(t: Tables, name: string) {
    (if name in t.nameToIndex then Some(t.nameToIndex[name]) else None) == FindName(t.list, name)
  }

  ghost predicate Agrees(t: Tables, seen: seq<Occurrence>) {
    && NoDuplicates(t.list)
    && (t.nextIndex == 1 || Occurs(seen, t.nextIndex - 1))
    && (forall i: Index :: IndexAgrees(t, seen, i))
    && forall name :: NameAgrees(t, name)
  }

  lemma {:induction false} FindAfterAppend(list: seq<Parameter>, p: Parameter, i: Index)
    ensures Find(list + [p], i) == if Find(list, i).Some? then Find(list, i) else if p.index == i then Some(p) else None
  {
    if list != [] {
      FindAfterAppend(list[1..], p, i);
      assert (list + [p])[1..] == list[1..] + [p];
    }
  }

  lemma {:induction false} FindAfterRemoval(list: seq<Parameter>, removed: Index, i: Index)
    ensures Find(Without(list, removed), i) == if i == removed then None else Find(list, i)
  {
    if list != [] {
      FindAfterRemoval(list[1..], removed, i);
      assert ([list[0]] + Without(list[1..], removed))[1..] == Without(list[1..], removed);
    }
  }

  lemma {:induction false} NameAfterAppend(list: seq<Parameter>, p: Parameter, name: string)
    ensures FindName(list + [p], name) ==
            if FindName(list, name).Some? then FindName(list, name)
            else if p.Named? && p.name == name then Some(p.index) else None
  {
    if list != [] {
      NameAfterAppend(list[1..], p, name);
      assert (list + [p])[1..] == list[1..] + [p];
    }
  }

  lemma {:induction false} NameAfterRemoval(list: seq<Parameter>, removed: Index, name: string)
    requires forall k :: 0 <= k < |list| && list[k].index == removed ==> list[k].Indexed?
    ensures FindName(Without(list, removed), name) == FindName(list, name)
  {
    if list != [] {
      NameAfterRemoval(list[1..], removed, name);
      assert ([list[0]] + Without(list[1..], removed))[1..] == Without(list[1..], removed);
    }
  }

  /** Scanning finds exactly what is there. */
  lemma {:induction false} FindIsThere(list: seq<Parameter>, k: nat)
    requires NoDuplicates(list) && k < |list|
    ensures Find(list, list[k].index) == Some(list[k])
  {
    if k > 0 {
      assert list[0].index != list[k].index;
      FindIsThere(list[1..], k - 1);
    }
  }

  lemma {:induction false} RemovalKeepsDistinct(list: seq<Parameter>, removed: Index)
    requires NoDuplicates(list)
    ensures NoDuplicates(Without(list, removed))
    ensures forall p :: p in Without(list, removed) ==> p in list && p.index != removed
  {
    if list != [] {
      RemovalKeepsDistinct(list[1..], removed);
      assert forall p :: p in list[1..] ==> p.index != list[0].index;
    }
  }

  lemma {:induction false} AbsentFromList(list: seq<Parameter>, i: Index)
    requires Find(list, i).None? && NoDuplicates(list)
    ensures forall k :: 0 <= k < |list| ==> list[k].index != i
  {
    forall k | 0 <= k < |list| ensures list[k].index != i {
      FindIsThere(list, k);
    }
  }

  lemma OccurrencesGrow(seen: seq<Occurrence>, o: Occurrence, i: Index)
    ensures Occurs(seen + [o], i) == (Occurs(seen, i) || o.index == i)
    ensures OccursNumbered(seen + [o], i) == (OccursNumbered(seen, i) || o == Occurrence(i, Number))
    ensures FirstName(seen + [o], i) ==
            if FirstName(seen, i).Some? then FirstName(seen, i)
            else if o.index == i && o.spelling.Name? then Some(o.spelling.name) else None
  {
    var more := seen + [o];
    assert more[..|seen|] == seen && more[|seen|] == o;
    assert forall k :: 0 <= k < |seen| ==> more[k] == seen[k];
  }

  lemma {:induction false} NamedOccurs(seen: seq<Occurrence>, i: Index)
    ensures FirstName(seen, i).Some? || OccursNumbered(seen, i) ==> Occurs(seen, i)
  {
    if seen != [] {
      NamedOccurs(seen[..|seen| - 1], i);
      assert forall k :: 0 <= k < |seen| - 1 ==> seen[..|seen| - 1][k] == seen[k];
    }
  }

  lemma PositionalAgrees(t: Tables, seen: seq<Occurrence>, i: Index, numbered: bool)
    requires Agrees(t, seen)
    ensures Agrees(PushPositional(t, i, numbered), seen + [Occurrence(i, if numbered then Number else Bare)])
  {
    hide Find, FindName, FirstName, Occurs, OccursNumbered, NoDuplicates;
    var o := Occurrence(i, if numbered then Number else Bare);
    var t', more := PushPositional(t, i, numbered), seen + [o];
    assert IndexAgrees(t, seen, i);
    forall j: Index ensures IndexAgrees(t', more, j) {
      assert IndexAgrees(t, seen, j);
      NamedOccurs(seen, j);
      OccurrencesGrow(seen, o, j);
      FindAfterAppend(t.list, Indexed(i), j);
    }
    forall name ensures NameAgrees(t', name) {
      assert NameAgrees(t, name);
      NameAfterAppend(t.list, Indexed(i), name);
    }
    OccurrencesGrow(seen, o, i);
    if t.nextIndex > 1 {
      OccurrencesGrow(seen, o, t.nextIndex - 1);
    }
    NamedOccurs(seen, i);
    if i !in t.present {
      AppendKeepsDistinct(t.list, Indexed(i));
    }
  }

  lemma AppendKeepsDistinct(list: seq<Parameter>, p: Parameter)
    requires NoDuplicates(list) && Find(list, p.index).None?
    ensures NoDuplicates(list + [p])
  {
    AbsentFromList(list, p.index);
  }

  lemma NamedAgrees(t: Tables, seen: seq<Occurrence>, name: string, i: Index)
    requires Agrees(t, seen)
    ensures Agrees(PushNamedAt(t, name, i), seen + [Occurrence(i, Name(name))])
  {
    hide Find, FindName, FirstName, Occurs, OccursNumbered, NoDuplicates, Without;
    var o := Occurrence(i, Name(name));
    var t', more := PushNamedAt(t, name, i), seen + [o];
    assert IndexAgrees(t, seen, i);
    var kept := if i in t.present then Without(t.list, i) else t.list;
    forall j: Index ensures IndexAgrees(t', more, j) {
      assert IndexAgrees(t, seen, j);
      NamedOccurs(seen, j);
      OccurrencesGrow(seen, o, j);
      FindAfterRemoval(t.list, i, j);
      FindAfterAppend(kept, Named(name, i), j);
    }
    forall n ensures NameAgrees(t', n) {
      assert NameAgrees(t, n);
      if i !in t.indexToName {
        UnnamedIsIndexed(t.list, i);
        NameAfterRemoval(t.list, i, n);
        NameAfterAppend(kept, Named(name, i), n);
      }
    }
    OccurrencesGrow(seen, o, i);
    if t.nextIndex > 1 {
      OccurrencesGrow(seen, o, t.nextIndex - 1);
    }
    FindAfterRemoval(t.list, i, i);
    RemovalKeepsDistinct(t.list, i);
    if i !in t.indexToName {
      AppendKeepsDistinct(kept, Named(name, i));
    }
  }

  lemma {:induction false} UnnamedIsIndexed(list: seq<Parameter>, i: Index)
    requires NoDuplicates(list) && (Find(list, i).Some? ==> Find(list, i).value.Indexed?)
    ensures forall k :: 0 <= k < |list| && list[k].index == i ==> list[k].Indexed?
  {
    forall k | 0 <= k < |list| && list[k].index == i ensures list[k].Indexed? {
      FindIsThere(list, k);
    }
  }

  lemma RepeatedNameAgrees(t: Tables, seen: seq<Occurrence>, name: string)
    requires Agrees(t, seen) && name in t.nameToIndex
    ensures Agrees(t, seen + [Occurrence(t.nameToIndex[name], Name(name))])
  {
    hide Find, FindName, FirstName, Occurs, OccursNumbered, NoDuplicates;
    var o := Occurrence(t.nameToIndex[name], Name(name));
    assert NameAgrees(t, name);
    NameIsThere(t.list, name);
    forall j: Index ensures IndexAgrees(t, seen + [o], j) {
      assert IndexAgrees(t, seen, j);
      NamedOccurs(seen, j);
      OccurrencesGrow(seen, o, j);
    }
    if t.nextIndex > 1 {
      OccurrencesGrow(seen, o, t.nextIndex - 1);
    }
  }

  /** The entry a name is found at carries that name. */
  lemma {:induction false} NameIsThere(list: seq<Parameter>, name: string)
    requires NoDuplicates(list) && FindName(list, name).Some?
    ensures Find(list, FindName(list, name).value) == Some(Named(name, FindName(list, name).value))
  {
    if !(list[0].Named? && list[0].name == name) {
      NameIsThere(list[1..], name);
      var i := FindName(list[1..], name).value;
      FoundSomewhere(list[1..], i);
      assert forall k :: 1 <= k < |list| ==> list[k] == list[1..][k - 1];
    }
  }

  lemma {:induction false} FoundSomewhere(list: seq<Parameter>, i: Index)
    requires Find(list, i).Some?
    ensures exists k :: 0 <= k < |list| && list[k] == Find(list, i).value
  {
    if list[0].index != i {
      FoundSomewhere(list[1..], i);
      var k :| 0 <= k < |list[1..]| && list[1..][k] == Find(list[1..], i).value;
      assert list[k + 1] == Find(list, i).value;
    }
  }

  lemma StepAgrees(t: Tables, seen: seq<Occurrence>, call: Call)
    requires Agrees(t, seen) && call.Parsed()
    ensures Agrees(Step(t, call), seen + [Spelled(t, call)])
  {
    hide Agrees, PushPositional, PushNamedAt;
    match call
    case Push(text) =>
      if !IsName(text) {
        PositionalAgrees(t, seen, ParseIndex(text).value, false);
      } else if text in t.nameToIndex {
        RepeatedNameAgrees(t, seen, text);
      } else {
        NamedAgrees(t, seen, text, t.nextIndex);
        AllocatingReserves(t, text);
      }
    case PushIndex(i) => PositionalAgrees(t, seen, i, false);
    case PushNumbered(i) => PositionalAgrees(t, seen, i, true);
    case PushNamed(name, i) => NamedAgrees(t, seen, name, i);
  }

  lemma AllocatingReserves(t: Tables, name: string)
    ensures PushNamedAt(t.(nextIndex := t.nextIndex + 1), name, t.nextIndex) == PushNamedAt(t, name, t.nextIndex)
  {
  }

  lemma {:induction false} EveryRunAgrees(calls: Calls)
    ensures Agrees(Run(calls), Occurrences(calls))
  {
    if calls != [] {
      var before: Calls := calls[..|calls| - 1];
      EveryRunAgrees(before);
      StepAgrees(Run(before), Occurrences(before), calls[|calls| - 1]);
    }
  }

  /** The index a text leads to, by scanning: the first entry of that name, or else the entry `?N` stands for if it
      is unnamed and was written `?N`. */
  function ScanIndex(list: seq<Parameter>, seen: seq<Occurrence>, name: string): Option<Index> {
    if FindName(list, name).Some? then FindName(list, name)
    else if name == [] || name[0] != '?' || ParseIndex(name[1..]).None? then None
    else
      var i := ParseIndex(name[1..]).value;
      if Find(list, i) == Some(Indexed(i)) && OccursNumbered(seen, i) then Some(i) else None
  }

  /** After any sequence of calls, every lookup of every index and every text answers as a scan of the parameter list
      does, and the list holds one entry per index that occurred: named by the first name the index was given,
      numbered if it was written `?N` and never named. */
  lemma LookupsAreScans(calls: Calls, i: Index, name: string)
    ensures var t, seen := Run(calls), Occurrences(calls);
            && NoDuplicates(t.list)
            && Find(t.list, i) == Entry(seen, i)
            && HasIndex(t, i) == Find(t.list, i).Some? == Occurs(seen, i)
            && IsIndexed(t, i) == (Find(t.list, i) == Some(Indexed(i)))
            && NameOf(t, i) == (match Entry(seen, i)
                                case Some(Named(n, _)) => Some(n)
                                case Some(Indexed(_)) =>
                                  if OccursNumbered(seen, i) then Some("?" + Decimal(i)) else None
                                case None => None)
            && IndexOf(t, name) == ScanIndex(t.list, seen, name)
  {
    hide Find, FindName, FirstName, Occurs, OccursNumbered, NoDuplicates, Decimal, ParseIndex, Run, Occurrences;
    var t, seen := Run(calls), Occurrences(calls);
    EveryRunAgrees(calls);
    assert IndexAgrees(t, seen, i) && NameAgrees(t, name);
    NamedOccurs(seen, i);
    if name != [] && name[0] == '?' && ParseIndex(name[1..]).Some? {
      var n := ParseIndex(name[1..]).value;
      assert IndexAgrees(t, seen, n);
      NamedOccurs(seen, n);
    }
  }

  /** The parameter count is the greatest index that occurs. */
  lemma CountIsGreatestIndex(calls: Calls)
    ensures var count := Run(calls).nextIndex - 1;
            && (count > 0 ==> Occurs(Occurrences(calls), count))
            && forall i: Index :: Occurs(Occurrences(calls), i) ==> i <= count
  {
    hide Occurs, Find, FirstName, OccursNumbered, Run, Occurrences, FindName, NoDuplicates;
    EveryRunAgrees(calls);
    forall i: Index | Occurs(Occurrences(calls), i) ensures i <= Run(calls).nextIndex - 1 {
      assert IndexAgrees(Run(calls), Occurrences(calls), i);
    }
  }

  // ----- Names and named indices

  /** Every name leads to the index that bears it, and every named index is where its name leads. */
  predicate Bijective(t: Tables) {
    && (forall n :: n in t.nameToIndex ==> t.nameToIndex[n] in t.indexToName && t.indexToName[t.nameToIndex[n]] == n)
    && forall i :: i in t.indexToName ==> t.indexToName[i] in t.nameToIndex && t.nameToIndex[t.indexToName[i]] == i
  }

  /** Naming an index directly keeps the bijection exactly when the index is already named or the name is new. */
  lemma DirectNamingKeepsBijection(t: Tables, name: string, i: Index)
    requires Bijective(t)
    ensures Bijective(PushNamedAt(t, name, i)) <==> i in t.indexToName || name !in t.nameToIndex
  {
    var t' := PushNamedAt(t, name, i);
    if i !in t.indexToName && name in t.nameToIndex {
      assert t'.indexToName[i] == name && t'.nameToIndex[name] != i;
    }
  }

  /** Two direct calls with one name leave a named index its name does not lead to. */
  lemma OneNameTwice(name: string, i: Index, j: Index)
    requires i != j
    ensures !Bijective(Step(Step(EMPTY, PushNamed(name, i)), PushNamed(name, j)))
  {
    var t := Step(EMPTY, PushNamed(name, i));
    DirectNamingKeepsBijection(EMPTY, name, i);
    DirectNamingKeepsBijection(t, name, j);
  }

  predicate NoDirectNaming(calls: Calls) {
    forall k :: 0 <= k < |calls| ==> !calls[k].PushNamed?
  }

  lemma MarkerKeepsBijection(t: Tables, call: Call)
    requires Bijective(t) && call.Parsed() && !call.PushNamed?
    requires forall n :: n in t.nameToIndex ==> IsName(n)
    ensures Bijective(Step(t, call))
    ensures forall n :: n in Step(t, call).nameToIndex ==> IsName(n)
  {
    hide Without, ParseIndex;
    if call.Push? && IsName(call.text) && call.text !in t.nameToIndex {
      DirectNamingKeepsBijection(t, call.text, t.nextIndex);
      AllocatingReserves(t, call.text);
    }
  }

  lemma {:induction false} MarkersAreBijective(calls: Calls)
    requires NoDirectNaming(calls)
    ensures Bijective(Run(calls))
    ensures forall n :: n in Run(calls).nameToIndex ==> IsName(n)
  {
    if calls != [] {
      var before: Calls := calls[..|calls| - 1];
      MarkersAreBijective(before);
      assert !calls[|calls| - 1].PushNamed?;
      MarkerKeepsBijection(Run(before), calls[|calls| - 1]);
    }
  }

  /** A statement's own markers: the name reported for an index resolves back to that index. */
  lemma NameResolvesBack(calls: Calls, i: Index)
    requires NoDirectNaming(calls) && i < U64_LIMIT && NameOf(Run(calls), i).Some?
    ensures IndexOf(Run(calls), NameOf(Run(calls), i).value) == Some(i)
  {
    hide Decimal;
    var t := Run(calls);
    MarkersAreBijective(calls);
    if i !in t.indexToName {
      var name := "?" + Decimal(i);
      assert name[0] == '?' && name[1..] == Decimal(i);
      ParseOfDecimal(i);
    }
  }

  /** A new name gets the index after the greatest one in use, a known name the index it has; either way the name leads
      there from then on, and nothing else changes its index. */
  lemma NameGetsIndex(calls: Calls, name: string)
    requires IsName(name)
    ensures var t, seen := Run(calls), Occurrences(calls);
            var i := Target(t, Push(name));
            && (FindName(t.list, name).Some? ==> i == FindName(t.list, name).value && Step(t, Push(name)) == t)
            && (FindName(t.list, name).None? ==>
                  && !Occurs(seen, i) && (i == 1 || Occurs(seen, i - 1))
                  && (forall j: Index :: Occurs(seen, j) ==> j < i)
                  && Find(Step(t, Push(name)).list, i) == Some(Named(name, i)))
            && IndexOf(Step(t, Push(name)), name) == Some(i)
  {
    hide Find, FindName, FirstName, Occurs, OccursNumbered, NoDuplicates, Run, Occurrences, Decimal, ParseIndex, Without;
    var t, seen := Run(calls), Occurrences(calls);
    EveryRunAgrees(calls);
    CountIsGreatestIndex(calls);
    assert NameAgrees(t, name);
    if name !in t.nameToIndex {
      var i := t.nextIndex;
      assert IndexAgrees(t, seen, i);
      NamedOccurs(seen, i);
      FindAfterRemoval(t.list, i, i);
      FindAfterAppend(Without(t.list, i), Named(name, i), i);
      FindAfterAppend(t.list, Named(name, i), i);
    }
  }
}
