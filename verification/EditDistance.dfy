/** The manual's spelling suggestions (`cli/manual.rs`): the two-row edit distance and the choice of
    the closest page. */
module EditDistance {
  import opened Common

  function Min(a: nat, b: nat): nat {
    if a <= b then a else b
  }

  /** The recursive distance the table is filled from: last characters are deleted, inserted or paired. */
  function Distance(a: string, b: string): nat
    decreases |a| + |b|
  {
    if a == [] then |b|
    else if b == [] then |a|
    else
      var a', b' := a[..|a| - 1], b[..|b| - 1];
      var cost := if a[|a| - 1] == b[|b| - 1] then 0 else 1;
      Min(Min(Distance(a', b) + 1, Distance(a, b') + 1), Distance(a', b') + cost)
  }

  lemma Unfold(a: string, b: string)
    ensures a == [] ==> Distance(a, b) == |b|
    ensures b == [] ==> Distance(a, b) == |a|
    ensures a != [] && b != [] ==>
              var a', b' := a[..|a| - 1], b[..|b| - 1];
              Distance(a, b) == Min(Min(Distance(a', b) + 1, Distance(a, b') + 1),
                                    Distance(a', b') + if a[|a| - 1] == b[|b| - 1] then 0 else 1)
  {
  }

  /** The table's recurrence, read off prefixes. */
  lemma Cell(a: string, b: string, i: nat, j: nat)
    requires i <= |a| && j <= |b|
    ensures i == 0 ==> Distance(a[..i], b[..j]) == j
    ensures j == 0 ==> Distance(a[..i], b[..j]) == i
    ensures i > 0 && j > 0 ==>
              Distance(a[..i], b[..j]) ==
              Min(Min(Distance(a[..i - 1], b[..j]) + 1, Distance(a[..i], b[..j - 1]) + 1),
                  Distance(a[..i - 1], b[..j - 1]) + if a[i - 1] == b[j - 1] then 0 else 1)
  {
    hide Distance;
    Unfold(a[..i], b[..j]);
    if i > 0 && j > 0 {
      assert a[..i][..i - 1] == a[..i - 1] && b[..j][..j - 1] == b[..j - 1];
    }
  }

  /** `levenshtein`. */
  method Levenshtein(a: string, b: string) returns (d: nat)
    ensures d == Distance(a, b)
  {
    hide Distance;
    assert a[..|a|] == a && b[..|b|] == b;
    Cell(a, b, |a|, |b|);
    if |a| == 0 {
      return |b|;
    }
    if |b| == 0 {
      return |a|;
    }
    forall j | 0 <= j <= |b| ensures Distance(a[..0], b[..j]) == j {
      Cell(a, b, 0, j);
    }
    var prevRow := new nat[|b| + 1](j => j);
    var currentRow := new nat[|b| + 1](_ => 0);
    for i := 1 to |a| + 1
      invariant forall j :: 0 <= j <= |b| ==> prevRow[j] == Distance(a[..i - 1], b[..j])
    {
      currentRow[0] := i;
      Cell(a, b, i, 0);
      for j := 1 to |b| + 1
        invariant forall k :: 0 <= k <= |b| ==> prevRow[k] == Distance(a[..i - 1], b[..k])
        invariant forall k :: 0 <= k < j ==> currentRow[k] == Distance(a[..i], b[..k])
      {
        var substitutionCost := if a[i - 1] == b[j - 1] then 0 else 1;
        currentRow[j] := Min(Min(prevRow[j] + 1, currentRow[j - 1] + 1), prevRow[j - 1] + substitutionCost);
        Cell(a, b, i, j);
      }
      forall k | 0 <= k <= |b| {
        prevRow[k] := currentRow[k];
      }
    }
    d := prevRow[|b|];
  }

  // ----- Edits

  datatype Edit = Insert(at: nat, c: char) | Delete(at: nat) | Replace(at: nat, c: char)

  /** One edit anywhere in the string; `None` if it is out of range. */
  function Perform(e: Edit, s: string): Option<string> {
    match e
    case Insert(at, c) => if at <= |s| then Some(s[..at] + [c] + s[at..]) else None
    case Delete(at) => if at < |s| then Some(s[..at] + s[at + 1..]) else None
    case Replace(at, c) => if at < |s| then Some(s[..at] + [c] + s[at + 1..]) else None
  }

  function PerformAll(edits: seq<Edit>, s: string): Option<string>
    decreases |edits|
  {
    if edits == [] then Some(s)
    else
      match Perform(edits[0], s)
      case None => None
      case Some(t) => PerformAll(edits[1..], t)
  }

  // ----- The distance is a metric

  lemma {:induction false} ZeroOnlyOnEqual(a: string, b: string)
    ensures Distance(a, b) == 0 <==> a == b
    decreases |a| + |b|
  {
    if a != [] && b != [] {
      var a', b' := a[..|a| - 1], b[..|b| - 1];
      ZeroOnlyOnEqual(a', b');
      assert a == a' + [a[|a| - 1]] && b == b' + [b[|b| - 1]];
    }
  }

  lemma {:induction false} Symmetric(a: string, b: string)
    ensures Distance(a, b) == Distance(b, a)
    decreases |a| + |b|
  {
    if a != [] && b != [] {
      var a', b' := a[..|a| - 1], b[..|b| - 1];
      Symmetric(a', b);
      Symmetric(a, b');
      Symmetric(a', b');
    }
  }

  lemma {:induction false} LengthBounds(a: string, b: string)
    ensures |a| <= |b| + Distance(a, b) && |b| <= |a| + Distance(a, b)
    ensures Distance(a, b) <= |a| + |b|
    decreases |a| + |b|
  {
    if a != [] && b != [] {
      var a', b' := a[..|a| - 1], b[..|b| - 1];
      LengthBounds(a', b);
      LengthBounds(a, b');
      LengthBounds(a', b');
    }
  }

  lemma {:induction false} Triangle(a: string, b: string, c: string)
    ensures Distance(a, c) <= Distance(a, b) + Distance(b, c)
    decreases |a| + |b| + |c|
  {
    hide Distance;
    LengthBounds(a, b);
    LengthBounds(b, c);
    LengthBounds(a, c);
    Unfold(a, c);
    Unfold(a, b);
    Unfold(b, c);
    if a != [] && b != [] && c != [] {
      var a', b', c' := a[..|a| - 1], b[..|b| - 1], c[..|c| - 1];
      Triangle(a', b, c);
      Triangle(a, b, c');
      Triangle(a, b', c);
      Triangle(a, b', c');
      Triangle(a', b', c);
      Triangle(a', b', c');
    }
  }

  // ----- The distance is the least number of edits

  /** A common ending never makes two strings further apart. */
  lemma {:induction false} CommonEnding(a: string, b: string, t: string)
    ensures Distance(a + t, b + t) <= Distance(a, b)
  {
    hide Distance;
    if t == [] {
      assert a + t == a && b + t == b;
    } else {
      var t' := t[..|t| - 1];
      CommonEnding(a, b, t');
      Unfold(a + t, b + t);
      assert (a + t)[..|a + t| - 1] == a + t' && (b + t)[..|b + t| - 1] == b + t';
    }
  }

  /** One edit is worth at most one unit of distance. */
  lemma OneEdit(e: Edit, s: string)
    requires Perform(e, s).Some?
    ensures Distance(s, Perform(e, s).value) <= 1
  {
    hide Distance;
    match e
    case Insert(at, c) =>
      var p, q := s[..at], s[at..];
      assert s == p + q && p + [] == p;
      EndsBy(p, [], [c]);
      CommonEnding(p, p + [c], q);
    case Delete(at) =>
      var p, q := s[..at], s[at + 1..];
      assert s == p + [s[at]] + q;
      assert p + [] == p;
      EndsBy(p, [s[at]], []);
      CommonEnding(p + [s[at]], p, q);
    case Replace(at, c) =>
      var p, q := s[..at], s[at + 1..];
      assert s == p + [s[at]] + q;
      EndsBy(p, [s[at]], [c]);
      CommonEnding(p + [s[at]], p + [c], q);
  }

  lemma EndsBy(p: string, x: string, y: string)
    requires |x| <= 1 && |y| <= 1
    ensures Distance(p + x, p + y) <= 1
  {
    hide Distance;
    ZeroOnlyOnEqual(p, p);
    Unfold(p + x, p + y);
    assert p + [] == p;
    assert x != [] ==> (p + x)[..|p + x| - 1] == p;
    assert y != [] ==> (p + y)[..|p + y| - 1] == p;
  }

  /** No sequence of edits turns `a` into `b` in fewer steps than their distance. */
  lemma {:induction false} NoShorterEdits(edits: seq<Edit>, a: string, b: string)
    requires PerformAll(edits, a) == Some(b)
    ensures Distance(a, b) <= |edits|
    decreases |edits|
  {
    if edits == [] {
      ZeroOnlyOnEqual(a, b);
    } else {
      var t := Perform(edits[0], a).value;
      OneEdit(edits[0], a);
      NoShorterEdits(edits[1..], t, b);
      Triangle(a, t, b);
    }
  }

  lemma EditsAtEnd(p: string, x: char, c: char)
    ensures Perform(Insert(|p|, c), p) == Some(p + [c])
    ensures Perform(Delete(|p|), p + [x]) == Some(p)
    ensures Perform(Replace(|p|, c), p + [x]) == Some(p + [c])
  {
    assert p[..|p|] == p && p[|p|..] == [] && p + [c] + [] == p + [c] && p + [] == p;
    assert (p + [x])[..|p|] == p && (p + [x])[|p| + 1..] == [];
  }

  lemma NoEdits(s: string)
    ensures PerformAll([], s) == Some(s)
  {
  }

  lemma SingleEdit(e: Edit, s: string)
    ensures PerformAll([e], s) == Perform(e, s)
  {
  }

  lemma FirstEdit(e: Edit, edits: seq<Edit>, s: string)
    requires Perform(e, s).Some?
    ensures PerformAll([e] + edits, s) == PerformAll(edits, Perform(e, s).value)
  {
  }

  /** Edits inside a string do the same inside a longer one. */
  lemma {:induction false} EditsBeforeEnding(edits: seq<Edit>, a: string, t: string)
    requires PerformAll(edits, a).Some?
    ensures PerformAll(edits, a + t) == Some(PerformAll(edits, a).value + t)
    decreases |edits|
  {
    if edits != [] {
      var s := Perform(edits[0], a).value;
      assert Perform(edits[0], a + t).value == s + t;
      EditsBeforeEnding(edits[1..], s, t);
    }
  }

  lemma {:induction false} EditsThen(edits: seq<Edit>, more: seq<Edit>, a: string)
    requires PerformAll(edits, a).Some?
    ensures PerformAll(edits + more, a) == PerformAll(more, PerformAll(edits, a).value)
    decreases |edits|
  {
    if edits == [] {
      assert edits + more == more;
    } else {
      assert (edits + more)[1..] == edits[1..] + more;
      EditsThen(edits[1..], more, Perform(edits[0], a).value);
    }
  }

  /** Edits that turn `a` into `b` in exactly as many steps as their distance. */
  function ShortestEdits(a: string, b: string): (edits: seq<Edit>)
    ensures |edits| == Distance(a, b)
    decreases |a| + |b|
  {
    if b == [] then if a == [] then [] else [Delete(|a| - 1)] + ShortestEdits(a[..|a| - 1], b)
    else
      var b', last := b[..|b| - 1], b[|b| - 1];
      if a == [] then ShortestEdits(a, b') + [Insert(|b| - 1, last)]
      else
        var a' := a[..|a| - 1];
        if Distance(a, b) == Distance(a', b) + 1 then [Delete(|a| - 1)] + ShortestEdits(a', b)
        else if Distance(a, b) == Distance(a, b') + 1 then ShortestEdits(a, b') + [Insert(|b| - 1, last)]
        else if a[|a| - 1] == last then ShortestEdits(a', b')
        else ShortestEdits(a', b') + [Replace(|b| - 1, last)]
  }

  lemma {:induction false} ShortestEditsWork(a: string, b: string)
    ensures PerformAll(ShortestEdits(a, b), a) == Some(b)
    decreases |a| + |b|
  {
    hide Distance, Perform, PerformAll;
    if b == [] {
      if a == [] {
        NoEdits(a);
      } else {
        DeleteFirst(a, b);
      }
    } else {
      var b', last := b[..|b| - 1], b[|b| - 1];
      if a == [] {
        InsertLast(a, b);
      } else {
        var a', x := a[..|a| - 1], [a[|a| - 1]];
        if Distance(a, b) == Distance(a', b) + 1 {
          DeleteFirst(a, b);
        } else if Distance(a, b) == Distance(a, b') + 1 {
          InsertLast(a, b);
        } else {
          ShortestEditsWork(a', b');
          assert a == a' + x && b == b' + [last];
          EditsBeforeEnding(ShortestEdits(a', b'), a', x);
          if x[0] != last {
            EditsThen(ShortestEdits(a', b'), [Replace(|b'|, last)], a);
            EditsAtEnd(b', x[0], last);
            SingleEdit(Replace(|b'|, last), b' + x);
          }
        }
      }
    }
  }

  lemma DeleteFirst(a: string, b: string)
    requires a != []
    ensures PerformAll([Delete(|a| - 1)] + ShortestEdits(a[..|a| - 1], b), a) == Some(b)
    decreases |a| + |b|, 0
  {
    hide Distance, ShortestEdits, Perform, PerformAll;
    var a' := a[..|a| - 1];
    ShortestEditsWork(a', b);
    assert a == a' + [a[|a| - 1]];
    EditsAtEnd(a', a[|a| - 1], ' ');
    FirstEdit(Delete(|a| - 1), ShortestEdits(a', b), a);
  }

  lemma InsertLast(a: string, b: string)
    requires b != []
    ensures PerformAll(ShortestEdits(a, b[..|b| - 1]) + [Insert(|b| - 1, b[|b| - 1])], a) == Some(b)
    decreases |a| + |b|, 0
  {
    hide Distance, ShortestEdits, Perform, PerformAll;
    var b', last := b[..|b| - 1], b[|b| - 1];
    ShortestEditsWork(a, b');
    EditsThen(ShortestEdits(a, b'), [Insert(|b'|, last)], a);
    assert b == b' + [last];
    EditsAtEnd(b', ' ', last);
    SingleEdit(Insert(|b'|, last), b');
  }

  /** The distance is the length of the shortest sequence of edits. */
  lemma DistanceIsLeastEdits(a: string, b: string)
    ensures exists edits :: PerformAll(edits, a) == Some(b) && |edits| == Distance(a, b)
    ensures forall edits :: PerformAll(edits, a) == Some(b) ==> Distance(a, b) <= |edits|
  {
    ShortestEditsWork(a, b);
    forall edits | PerformAll(edits, a) == Some(b) ensures Distance(a, b) <= |edits| {
      NoShorterEdits(edits, a, b);
    }
  }

  // ----- The closest manual page

  /** Relative distance below 0.4 of the longer name, which must not be empty. */
  predicate Similar(name: string, candidate: string) {
    var longer := if |name| >= |candidate| then |name| else |candidate|;
    longer != 0 && 5 * Distance(name, candidate) < 2 * longer
  }

  lemma RatioBelow(d: real, l: real)
    requires l > 0.0
    ensures d / l < 0.4 <==> d < 0.4 * l
  {
    var q := d / l;
    assert q * l == d;
    if q < 0.4 {
      assert q * l < 0.4 * l;
    } else {
      assert q * l >= 0.4 * l;
    }
  }

  /** The test in the numbers the source has it in: relative to the longer of the two names, less than 0.4. */
  lemma SimilarIsRelative(name: string, candidate: string, longer: nat)
    requires longer in {|name|, |candidate|} && longer >= |name| && longer >= |candidate|
    ensures Similar(name, candidate) <==> longer > 0 && Distance(name, candidate) as real / longer as real < 0.4
  {
    hide Distance;
    if longer > 0 {
      var d := Distance(name, candidate);
      RatioBelow(d as real, longer as real);
      assert (5 * d) as real == 5.0 * d as real && (2 * longer) as real == 2.0 * longer as real;
    }
  }

  /** `find_closest_manual_page`: the position of the page suggested, keeping the earlier of two equally near. */
  function FindClosest(name: string, pages: seq<string>): (r: Option<nat>)
    ensures r.Some? ==> r.value < |pages|
  {
    if pages == [] then None
    else
      var last := |pages| - 1;
      var best := FindClosest(name, pages[..last]);
      if !Similar(name, pages[last]) then best
      else if best.None? then Some(last)
      else if Distance(name, pages[last]) < Distance(name, pages[best.value]) then Some(last)
      else best
  }

  /** A page is suggested exactly when one is similar, and it is the first of the nearest similar pages. */
  lemma {:induction false} SuggestsFirstNearest(name: string, pages: seq<string>)
    ensures var r := FindClosest(name, pages);
            && (r.None? <==> forall i :: 0 <= i < |pages| ==> !Similar(name, pages[i]))
            && (r.Some? ==> Similar(name, pages[r.value]))
            && (r.Some? ==> forall j :: 0 <= j < |pages| && Similar(name, pages[j]) ==>
                              if j < r.value then Distance(name, pages[r.value]) < Distance(name, pages[j])
                              else Distance(name, pages[r.value]) <= Distance(name, pages[j]))
  {
    hide Distance, Similar;
    if pages != [] {
      var last := |pages| - 1;
      SuggestsFirstNearest(name, pages[..last]);
      assert forall i :: 0 <= i < last ==> pages[..last][i] == pages[i];
    }
  }
}
