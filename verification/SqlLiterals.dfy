/** SQL literals of the shell (`cli/app.rs`): the writer that dumps values and the parser that reads parameter values
    back. Text is a sequence of characters; the only bytes the writer changes are ASCII. */
module SqlLiterals {
  import opened Common

  const I64_LIMIT: int := 0x8000_0000_0000_0000

  type I64 = i: int | -I64_LIMIT <= i < I64_LIMIT

  /** A float is given by a text that denotes it. */
  datatype Value = Null | Integer(i: I64) | Float(text: string) | Text(chars: string) | Blob(bytes: seq<Byte>)

  datatype ParseError = OddHexDigits | NonHexCharacter

  // ----- The writer

  function Doubled(s: string): string {
    if s == "" then ""
    else (if s[0] == '\'' then "''" else [s[0]]) + Doubled(s[1..])
  }

  function HexDigit(n: nat): char
    requires n < 16
  {
    if n < 10 then Digit(n) else 'a' + (n - 10) as char
  }

  function Hex(bytes: seq<Byte>): string {
    if bytes == [] then "" else [HexDigit(bytes[0] / 16), HexDigit(bytes[0] % 16)] + Hex(bytes[1..])
  }

  function SignedDecimal(i: int): string {
    if i < 0 then "-" + Decimal(-i) else Decimal(i)
  }

  function Literal(v: Value): string {
    match v
    case Null => "NULL"
    case Integer(i) => SignedDecimal(i)
    case Float(text) => text
    case Text(s) => "'" + Doubled(s) + "'"
    case Blob(bytes) => "X'" + Hex(bytes) + "'"
  }

  lemma {:induction false} DoubledOfPush(s: string, c: char)
    ensures Doubled(s + [c]) == Doubled(s) + if c == '\'' then "''" else [c]
  {
    if s != "" {
      DoubledOfPush(s[1..], c);
      assert (s + [c])[1..] == s[1..] + [c];
    } else {
      assert (s + [c])[1..] == "";
    }
  }

  lemma {:induction false} HexOfPush(bytes: seq<Byte>, b: Byte)
    ensures Hex(bytes + [b]) == Hex(bytes) + [HexDigit(b / 16), HexDigit(b % 16)]
  {
    if bytes != [] {
      HexOfPush(bytes[1..], b);
      assert (bytes + [b])[1..] == bytes[1..] + [b];
    } else {
      assert (bytes + [b])[1..] == [];
    }
  }

  method WriteSqlValue(v: Value) returns (out: string)
    ensures out == Literal(v)
  {
    match v
    case Null => out := "NULL";
    case Integer(i) => out := SignedDecimal(i);
    case Float(text) => out := text;
    case Text(s) =>
      out := "'";
      var i := 0;
      while i < |s|
        invariant 0 <= i <= |s| && out == "'" + Doubled(s[..i])
      {
        DoubledOfPush(s[..i], s[i]);
        assert s[..i + 1] == s[..i] + [s[i]];
        if s[i] == '\'' {
          out := out + "''";
        } else {
          out := out + [s[i]];
        }
        i := i + 1;
      }
      assert s[..|s|] == s;
      out := out + "'";
    case Blob(bytes) =>
      out := "X'";
      for i := 0 to |bytes|
        invariant out == "X'" + Hex(bytes[..i])
      {
        HexOfPush(bytes[..i], bytes[i]);
        assert bytes[..i + 1] == bytes[..i] + [bytes[i]];
        out := out + [HexDigit(bytes[i] / 16), HexDigit(bytes[i] % 16)];
      }
      assert bytes[..|bytes|] == bytes;
      out := out + "'";
  }

  // ----- The parser

  /** `char::is_whitespace`. */
  predicate IsWhitespace(c: char) {
    var n := c as int;
    9 <= n <= 13 || n == 0x20 || n == 0x85 || n == 0xA0 || n == 0x1680 || 0x2000 <= n <= 0x200A ||
    n == 0x2028 || n == 0x2029 || n == 0x202F || n == 0x205F || n == 0x3000
  }

  function TrimStart(s: string): string {
    if s != "" && IsWhitespace(s[0]) then TrimStart(s[1..]) else s
  }

  function TrimEnd(s: string): string {
    if s != "" && IsWhitespace(s[|s| - 1]) then TrimEnd(s[..|s| - 1]) else s
  }

  function Lower(c: char): char {
    if 'A' <= c <= 'Z' then c - 'A' + 'a' else c
  }

  predicate EqualsIgnoringCase(s: string, lower: string) {
    |s| == |lower| && forall i :: 0 <= i < |s| ==> Lower(s[i]) == lower[i]
  }

  function Unsigned(s: string): string {
    if s != "" && s[0] in {'+', '-'} then s[1..] else s
  }

  /** `str::parse::<i64>`. */
  function ParseI64(s: string): Option<I64> {
    if Unsigned(s) == "" then None
    else
      match DigitsValue(Unsigned(s))
      case None => None
      case Some(n) =>
        if s[0] == '-' then (if n <= I64_LIMIT then Some(0 - n) else None)
        else if n < I64_LIMIT then Some(n) else None
  }

  predicate AllDigits(s: string) {
    forall i :: 0 <= i < |s| ==> IsDigit(s[i])
  }

  /** Where the exponent starts, or the end of the text. */
  function ExponentAt(s: string): (n: nat)
    ensures n <= |s|
  {
    if s == "" || s[0] in {'e', 'E'} then 0 else 1 + ExponentAt(s[1..])
  }

  /** Digits up to `k`, and after it the end or a point and digits; at least one digit in all. */
  predicate MantissaAt(s: string, k: nat)
    requires k <= |s|
  {
    AllDigits(s[..k]) &&
    ((k == |s| && s != "") || (k < |s| && s[k] == '.' && AllDigits(s[k + 1..]) && |s| > 1))
  }

  predicate IsMantissa(s: string) {
    exists k :: 0 <= k <= |s| && MantissaAt(s, k)
  }

  /** What `str::parse::<f64>` accepts. */
  predicate IsFloat(s: string) {
    var u := Unsigned(s);
    var n := ExponentAt(u);
    || EqualsIgnoringCase(u, "inf") || EqualsIgnoringCase(u, "infinity") || EqualsIgnoringCase(u, "nan")
    || (IsMantissa(u[..n]) && (n == |u| || (AllDigits(Unsigned(u[n + 1..])) && Unsigned(u[n + 1..]) != "")))
  }

  /** The bytes of a character in UTF-8. */
  function Utf8Of(c: char): seq<Byte> {
    var n := c as int;
    if n < 0x80 then [n]
    else if n < 0x800 then [0xC0 + n / 0x40, 0x80 + n % 0x40]
    else if n < 0x1_0000 then [0xE0 + n / 0x1000, 0x80 + n / 0x40 % 0x40, 0x80 + n % 0x40]
    else [0xF0 + n / 0x4_0000, 0x80 + n / 0x1000 % 0x40, 0x80 + n / 0x40 % 0x40, 0x80 + n % 0x40]
  }

  function Utf8(s: string): seq<Byte> {
    if s == "" then [] else Utf8Of(s[0]) + Utf8(s[1..])
  }

  function HexValue(b: Byte): (r: Option<nat>)
    ensures r.Some? ==> r.value < 16
  {
    if '0' as int <= b <= '9' as int then Some(b - '0' as int)
    else if 'a' as int <= b <= 'f' as int then Some(10 + (b - 'a' as int))
    else if 'A' as int <= b <= 'F' as int then Some(10 + (b - 'A' as int))
    else None
  }

  /** The byte two digits stand for. */
  function HexPair(hi: Byte, lo: Byte): Option<Byte> {
    if HexValue(hi).Some? && HexValue(lo).Some? then Some(16 * HexValue(hi).value + HexValue(lo).value) else None
  }

  /** The bytes of an even number of hex digits. */
  function HexBytes(s: seq<Byte>): Result<seq<Byte>, ParseError>
    requires |s| % 2 == 0
  {
    if s == [] then Ok([])
    else if HexPair(s[0], s[1]).None? then Err(NonHexCharacter)
    else Prefixed([HexPair(s[0], s[1]).value], HexBytes(s[2..]))
  }

  /** More bytes in front of a result. */
  function Prefixed(out: seq<Byte>, r: Result<seq<Byte>, ParseError>): Result<seq<Byte>, ParseError> {
    if r.Ok? then Ok(out + r.value) else r
  }

  lemma PrefixedTwice(a: seq<Byte>, b: seq<Byte>, r: Result<seq<Byte>, ParseError>)
    ensures Prefixed([], r) == r && Prefixed(a, Ok([])) == Ok(a)
    ensures Prefixed(a, Prefixed(b, r)) == Prefixed(a + b, r)
  {
    assert a + [] == a;
    if r.Ok? {
      assert [] + r.value == r.value && a + (b + r.value) == a + b + r.value;
    }
  }

  /** Digits are counted and read in bytes. */
  function HexBlob(s: string): Result<seq<Byte>, ParseError> {
    if |Utf8(s)| % 2 != 0 then Err(OddHexDigits) else HexBytes(Utf8(s))
  }

  method ParseHexBlob(text: string) returns (r: Result<seq<Byte>, ParseError>)
    ensures r == HexBlob(text)
  {
    hide Utf8, HexValue, Prefixed;
    var hex := Utf8(text);
    if |hex| % 2 != 0 {
      return Err(OddHexDigits);
    }
    var out: seq<Byte> := [];
    var i := 0;
    assert hex[0..] == hex;
    PrefixedTwice([], [], HexBytes(hex));
    while i < |hex|
      invariant 0 <= i <= |hex| && (|hex| - i) % 2 == 0
      invariant HexBytes(hex) == Prefixed(out, HexBytes(hex[i..]))
    {
      var hi, lo := HexValue(hex[i]), HexValue(hex[i + 1]);
      assert hex[i..][2..] == hex[i + 2..];
      if hi.None? || lo.None? {
        PrefixedError(out, NonHexCharacter);
        return Err(NonHexCharacter);
      }
      var b: Byte := 16 * hi.value + lo.value;
      PrefixedTwice(out, [b], HexBytes(hex[i + 2..]));
      out := out + [b];
      i := i + 2;
    }
    PrefixedTwice(out, [], Ok([]));
    return Ok(out);
  }

  lemma PrefixedError(out: seq<Byte>, e: ParseError)
    ensures Prefixed(out, Err(e)) == Err(e)
  {
  }

  /** `replace` of each quote pair by one quote, from the left. */
  function Halved(s: string): string {
    if s == "" then ""
    else if |s| > 1 && s[0] == '\'' && s[1] == '\'' then "'" + Halved(s[2..])
    else [s[0]] + Halved(s[1..])
  }

  predicate HasPair(s: string) {
    exists i :: 0 <= i < |s| - 1 && s[i] == '\'' && s[i + 1] == '\''
  }

  function Unescape(s: string): string {
    if !HasPair(s) then s else Halved(s)
  }

  /** The text between a prefix and a closing quote. */
  function Quoted(s: string, open: nat): Option<string>
    requires open <= |s|
  {
    if |s| > open && s[|s| - 1] == '\'' then Some(s[open..|s| - 1]) else None
  }

  function Parse(input: string): Result<Value, ParseError> {
    var s := TrimEnd(TrimStart(input));
    if EqualsIgnoringCase(s, "null") then Ok(Null)
    else if ParseI64(s).Some? then Ok(Integer(ParseI64(s).value))
    else if ('.' in s || 'e' in s || 'E' in s) && IsFloat(s) then Ok(Float(s))
    else if |s| >= 2 && s[0] in {'x', 'X'} && s[1] == '\'' && Quoted(s, 2).Some? then
      (match HexBlob(Quoted(s, 2).value) case Ok(bytes) => Ok(Blob(bytes)) case Err(e) => Err(e))
    else if s != "" && s[0] == '\'' && Quoted(s, 1).Some? then Ok(Text(Unescape(Quoted(s, 1).value)))
    else Ok(Text(s))
  }

  // ----- Round trips

  lemma {:induction false} HalvedUndoesDoubled(s: string)
    ensures Halved(Doubled(s)) == s
  {
    if s != "" {
      HalvedUndoesDoubled(s[1..]);
      var rest := Doubled(s[1..]);
      if s[0] == '\'' {
        assert ("''" + rest)[2..] == rest;
      } else {
        assert ([s[0]] + rest)[1..] == rest;
      }
    }
  }

  lemma {:induction false} NothingToHalve(s: string)
    requires !HasPair(s)
    ensures Halved(s) == s
  {
    if s != "" {
      assert !HasPair(s[1..]) by {
        assert forall i :: 0 <= i < |s[1..]| ==> s[1..][i] == s[i + 1];
      }
      NothingToHalve(s[1..]);
    }
  }

  /** The early return of the source changes nothing. */
  lemma {:induction false} UnescapeIsHalved(s: string)
    ensures Unescape(s) == Halved(s)
  {
    if !HasPair(s) {
      NothingToHalve(s);
    }
  }

  lemma TwoDigits(hi: nat, lo: nat, rest: string)
    requires hi < 16 && lo < 16
    ensures var text := [HexDigit(hi), HexDigit(lo)] + rest;
            Utf8(text) == [HexDigit(hi) as int, HexDigit(lo) as int] + Utf8(rest)
    ensures HexValue(HexDigit(hi) as int) == Some(hi) && HexValue(HexDigit(lo) as int) == Some(lo)
  {
    var text := [HexDigit(hi), HexDigit(lo)] + rest;
    assert text[1..] == [HexDigit(lo)] + rest && text[1..][1..] == rest;
  }

  lemma {:induction false} HexRoundTrip(bytes: seq<Byte>)
    ensures |Utf8(Hex(bytes))| % 2 == 0 && HexBytes(Utf8(Hex(bytes))) == Ok(bytes)
  {
    hide Utf8, HexDigit, HexValue, Hex;
    HexOf(bytes);
    if bytes == [] {
      NoBytes();
    } else {
      HexRoundTrip(bytes[1..]);
      TwoDigits(bytes[0] / 16, bytes[0] % 16, Hex(bytes[1..]));
      assert Utf8(Hex(bytes))[2..] == Utf8(Hex(bytes[1..]));
      assert bytes == [bytes[0]] + bytes[1..];
    }
  }

  lemma HexOf(bytes: seq<Byte>)
    ensures bytes == [] ==> Hex(bytes) == ""
    ensures bytes != [] ==>
              Hex(bytes) == [HexDigit(bytes[0] / 16), HexDigit(bytes[0] % 16)] + Hex(bytes[1..])
  {
  }

  lemma NoBytes()
    ensures Utf8("") == []
  {
  }

  lemma NotTrimmed(s: string)
    requires s != "" && !IsWhitespace(s[0]) && !IsWhitespace(s[|s| - 1])
    ensures TrimEnd(TrimStart(s)) == s
  {
  }

  lemma MantissaStart(m: string)
    requires IsMantissa(m)
    ensures m != "" && (IsDigit(m[0]) || m[0] == '.')
  {
  }

  lemma StartsNoNumber(s: string)
    requires s != "" && !IsDigit(s[0]) && s[0] !in {'+', '-', '.', 'e', 'E', 'i', 'I', 'n', 'N'}
    ensures !EqualsIgnoringCase(s, "null") && ParseI64(s).None? && !IsFloat(s)
  {
    assert Lower(s[0]) != 'n' && Lower(s[0]) != 'i';
    NotAllDigits(s);
    var n := ExponentAt(s);
    assert n > 0;
    if IsMantissa(s[..n]) {
      MantissaStart(s[..n]);
    }
  }

  lemma {:induction false} NotAllDigits(s: string)
    requires s != "" && !IsDigit(s[0])
    ensures DigitsValue(s).None?
  {
    if |s| > 1 {
      NotAllDigits(s[..|s| - 1]);
    } else {
      assert s[..0] == "";
    }
  }

  lemma TextRoundTrip(s: string)
    ensures Parse(Literal(Text(s))) == Ok(Text(s))
  {
    hide IsFloat, ParseI64, EqualsIgnoringCase, Halved, Doubled, TrimStart, TrimEnd, Unescape;
    var l := Literal(Text(s));
    NotTrimmed(l);
    StartsNoNumber(l);
    assert l[1..|l| - 1] == Doubled(s);
    UnescapeIsHalved(Doubled(s));
    HalvedUndoesDoubled(s);
  }

  lemma BlobRoundTrip(bytes: seq<Byte>)
    ensures Parse(Literal(Blob(bytes))) == Ok(Blob(bytes))
  {
    hide IsFloat, ParseI64, EqualsIgnoringCase, TrimStart, TrimEnd, Hex, HexBytes, Unescape, Utf8;
    var l := Literal(Blob(bytes));
    NotTrimmed(l);
    StartsNoNumber(l);
    assert l[2..|l| - 1] == Hex(bytes);
    HexRoundTrip(bytes);
  }

  lemma ParseOfSigned(i: I64)
    ensures ParseI64(SignedDecimal(i)) == Some(i)
  {
    hide Decimal, DigitsValue;
    var s := SignedDecimal(i);
    if i < 0 {
      var n: nat := 0 - i;
      assert s[0] == '-' && s[1..] == Decimal(n);
      DecimalValue(n);
    } else {
      assert IsDigit(s[0]);
      DecimalValue(i);
    }
  }

  lemma IntegerRoundTrip(i: I64)
    ensures Parse(Literal(Integer(i))) == Ok(Integer(i))
  {
    hide IsFloat, ParseI64, TrimStart, TrimEnd, Decimal, Unescape;
    var l := Literal(Integer(i));
    assert IsDigit(l[|l| - 1]) && (IsDigit(l[0]) || l[0] == '-');
    NotTrimmed(l);
    ParseOfSigned(i);
  }

  /** Reading back what was written gives every NULL, integer, text and blob unchanged, whatever quotes the text
      holds and wherever they stand. */
  lemma LiteralRoundTrip(v: Value)
    requires !v.Float?
    ensures Parse(Literal(v)) == Ok(v)
  {
    match v
    case Null => NotTrimmed("NULL");
    case Integer(i) => IntegerRoundTrip(i);
    case Text(s) => TextRoundTrip(s);
    case Blob(bytes) => BlobRoundTrip(bytes);
  }

  /** A float comes back as that float exactly when its text shows a point or an exponent: `5.0`, written as `5`,
      comes back an integer, and `inf` a text. */
  lemma FloatRoundTrip(text: string)
    requires text != "" && !IsWhitespace(text[0]) && !IsWhitespace(text[|text| - 1]) && IsFloat(text)
    ensures Parse(Literal(Float(text))) == Ok(Float(text)) <==> '.' in text || 'e' in text || 'E' in text
  {
    hide IsFloat, TrimStart, TrimEnd, DigitsValue, HexBlob, Unescape;
    NotTrimmed(text);
    if '.' in text || 'e' in text || 'E' in text {
      PointIsNoInteger(text);
    }
  }

  lemma PointIsNoInteger(s: string)
    requires '.' in s || 'e' in s || 'E' in s
    ensures ParseI64(s).None? && !EqualsIgnoringCase(s, "null")
  {
    var u := Unsigned(s);
    var k :| 0 <= k < |s| && s[k] in {'.', 'e', 'E'};
    assert Lower(s[k]) !in "null";
    if s[0] in {'+', '-'} {
      assert u[k - 1] == s[k];
      NonDigitSpoils(u, k - 1);
    } else {
      NonDigitSpoils(u, k);
    }
  }

  // ----- What the writer never writes

  /** The whitespace of Unicode, by code. */
  const SPACES: set<int> := {0x09, 0x0A, 0x0B, 0x0C, 0x0D, 0x20, 0x85, 0xA0, 0x1680,
                             0x2000, 0x2001, 0x2002, 0x2003, 0x2004, 0x2005, 0x2006, 0x2007, 0x2008, 0x2009, 0x200A,
                             0x2028, 0x2029, 0x202F, 0x205F, 0x3000}

  lemma SpacesAreWhitespace(c: char)
    ensures IsWhitespace(c) <==> c as int in SPACES
  {
  }

  predicate AllWhitespace(s: string) {
    forall i :: 0 <= i < |s| ==> s[i] as int in SPACES
  }

  lemma {:induction false} StartIsTrimmed(before: string, s: string)
    requires AllWhitespace(before) && s != "" && s[0] as int !in SPACES
    ensures TrimStart(before + s) == s
  {
    hide IsWhitespace;
    SpacesAreWhitespace((before + s)[0]);
    if before == "" {
      assert before + s == s;
    } else {
      StartIsTrimmed(before[1..], s);
      assert (before + s)[1..] == before[1..] + s;
    }
  }

  lemma {:induction false} EndIsTrimmed(s: string, after: string)
    requires AllWhitespace(after) && s != "" && s[|s| - 1] as int !in SPACES
    ensures TrimEnd(s + after) == s
  {
    hide IsWhitespace;
    SpacesAreWhitespace((s + after)[|s + after| - 1]);
    if after == "" {
      assert s + after == s;
    } else {
      EndIsTrimmed(s, after[..|after| - 1]);
      assert (s + after)[..|s + after| - 1] == s + after[..|after| - 1];
    }
  }

  /** Whitespace around a value is ignored. */
  lemma SurroundingsAreIgnored(before: string, s: string, after: string)
    requires AllWhitespace(before) && AllWhitespace(after)
    requires s != "" && s[0] as int !in SPACES && s[|s| - 1] as int !in SPACES
    ensures Parse(before + s + after) == Parse(s)
  {
    hide IsWhitespace;
    SpacesAreWhitespace(s[0]);
    SpacesAreWhitespace(s[|s| - 1]);
    assert before + s + after == before + (s + after);
    assert (s + after)[0] == s[0];
    StartIsTrimmed(before, s + after);
    EndIsTrimmed(s, after);
    NotTrimmed(s);
  }

  /** NULL in any mix of cases. */
  lemma NullIsParsed(s: string)
    requires |s| == 4 && s[0] in "nN" && s[1] in "uU" && s[2] in "lL" && s[3] in "lL"
    ensures Parse(s) == Ok(Null)
  {
    NotTrimmed(s);
  }

  /** A digit of either case has its value, and nothing else has one. */
  lemma HexDigitsAre(n: nat, b: Byte)
    requires n < 16
    ensures HexValue("0123456789abcdef"[n] as int) == Some(n) && HexValue("0123456789ABCDEF"[n] as int) == Some(n)
    ensures HexValue(b).Some? <==> 48 <= b <= 57 || 97 <= b <= 102 || 65 <= b <= 70
  {
  }

  /** A blob literal opens with either case of X; its digits decide what it is. */
  lemma BlobLiteralIsParsed(lower: bool, digits: string)
    requires '\'' !in digits
    ensures Parse((if lower then "x'" else "X'") + digits + "'") ==
            match HexBlob(digits) case Ok(bytes) => Ok(Blob(bytes)) case Err(e) => Err(e)
  {
    hide IsFloat, ParseI64, EqualsIgnoringCase, TrimStart, TrimEnd, HexBlob, Unescape;
    var s := (if lower then "x'" else "X'") + digits + "'";
    NotTrimmed(s);
    StartsNoNumber(s);
    assert s[2..|s| - 1] == digits;
  }

  /** Any other word is a text that stands for itself, and so is a quote that is never closed. */
  lemma PlainTextIsParsed(s: string)
    requires s != "" && !IsWhitespace(s[0]) && !IsWhitespace(s[|s| - 1])
    requires !IsDigit(s[0]) && s[0] !in {'+', '-', '.', 'e', 'E', 'i', 'I', 'n', 'N'}
    requires s[|s| - 1] != '\'' || |s| == 1 || (s[0] != '\'' && !(s[0] in {'x', 'X'} && s[1] == '\''))
    ensures Parse(s) == Ok(Text(s))
  {
    hide IsFloat, ParseI64, EqualsIgnoringCase, TrimStart, TrimEnd, HexBlob, Unescape;
    NotTrimmed(s);
    StartsNoNumber(s);
  }

  /** The code a UTF-8 sequence of one to four bytes stands for. */
  function CodeOf(bytes: seq<Byte>): int
    requires 1 <= |bytes| <= 4
  {
    var first: int := bytes[0];
    if |bytes| == 1 then first
    else
      var lead := if |bytes| == 2 then first - 0xC0 else if |bytes| == 3 then first - 0xE0 else first - 0xF0;
      Continued(lead, bytes[1..])
  }

  function Continued(code: int, bytes: seq<Byte>): int
    decreases |bytes|
  {
    if bytes == [] then code
    else
      var next: int := bytes[0];
      Continued(0x40 * code + (next - 0x80), bytes[1..])
  }

  lemma ContinuedOf(code: int, a: Byte, rest: seq<Byte>)
    ensures var next: int := a; Continued(code, [a] + rest) == Continued(0x40 * code + (next - 0x80), rest)
  {
    assert ([a] + rest)[1..] == rest;
  }

  /** The bytes of a character: as many as its code needs, none of them ASCII unless it is, and the code can be read
      back from them. */
  lemma Utf8IsReadBack(c: char)
    ensures var n, b := c as int, Utf8Of(c);
            && |b| == (if n < 0x80 then 1 else if n < 0x800 then 2 else if n < 0x1_0000 then 3 else 4)
            && CodeOf(b) == n
            && (0x80 <= n ==> forall i :: 0 <= i < |b| ==> b[i] >= 0x80)
  {
    hide Continued;
    var n, b := c as int, Utf8Of(c);
    assert n / 0x1000 == n / 0x40 / 0x40 && n / 0x4_0000 == n / 0x1000 / 0x40;
    var d: Byte := 0x80 + n % 0x40;
    ContinuedOf(n / 0x40, d, []);
    EndOfBytes(n);
    if n >= 0x80 {
      assert [d] + [] == [d];
      if n < 0x800 {
        assert b[1..] == [d];
      } else {
        var e: Byte := 0x80 + n / 0x40 % 0x40;
        ContinuedOf(n / 0x1000, e, [d]);
        if n < 0x1_0000 {
          assert b[1..] == [e] + [d];
        } else {
          var f: Byte := 0x80 + n / 0x1000 % 0x40;
          ContinuedOf(n / 0x4_0000, f, [e, d]);
          assert b[1..] == [f] + [e, d] && [e, d] == [e] + [d];
        }
      }
    }
  }

  lemma EndOfBytes(n: int)
    ensures Continued(n, []) == n
  {
  }

  // ----- Texts that are floats

  /** A sign or none. */
  predicate IsSign(s: string) {
    s == "" || s == "+" || s == "-"
  }

  datatype FloatText = FloatText(sign: string, whole: string, point: bool, fraction: string,
                                 exponent: bool, upper: bool, exponentSign: string, digits: string)
  {
    /** Digits before or after a point, and digits after an exponent mark. */
    predicate Proper() {
      && IsSign(sign) && AllDigits(whole) && AllDigits(fraction) && (point || fraction == "")
      && (whole != "" || fraction != "")
      && IsSign(exponentSign) && AllDigits(digits) && (exponent <==> digits != "") && (exponent || exponentSign == "")
    }

    function Mantissa(): string {
      whole + if point then "." + fraction else ""
    }

    function Tail(): string {
      if exponent then (if upper then "E" else "e") + (exponentSign + digits) else ""
    }

    function Text(): string {
      sign + (Mantissa() + Tail())
    }
  }

  lemma {:induction false} ExponentFound(m: string, tail: string)
    requires forall i :: 0 <= i < |m| ==> m[i] !in {'e', 'E'}
    requires tail == "" || tail[0] in {'e', 'E'}
    ensures ExponentAt(m + tail) == |m|
  {
    if m != "" {
      ExponentFound(m[1..], tail);
      assert (m + tail)[1..] == m[1..] + tail;
    } else {
      assert m + tail == tail;
    }
  }

  lemma SignTaken(sign: string, rest: string)
    requires IsSign(sign) && rest != "" && rest[0] !in {'+', '-'}
    ensures Unsigned(sign + rest) == rest
  {
    assert sign == "" ==> sign + rest == rest;
    assert sign != "" ==> (sign + rest)[1..] == rest;
  }

  lemma MantissaIsOne(f: FloatText)
    requires f.Proper()
    ensures var m := f.Mantissa();
            && m != "" && (IsDigit(m[0]) || m[0] == '.') && IsMantissa(m)
            && forall i :: 0 <= i < |m| ==> m[i] !in {'e', 'E', '+', '-'}
  {
    var m, k := f.Mantissa(), |f.whole|;
    assert m[..k] == f.whole;
    if f.point {
      assert m[k] == '.' && m[k + 1..] == f.fraction;
    }
    assert MantissaAt(m, k);
  }

  lemma FloatIsOne(f: FloatText)
    requires f.Proper()
    ensures IsFloat(f.Text())
  {
    hide IsMantissa, EqualsIgnoringCase, ExponentAt;
    var m, tail := f.Mantissa(), f.Tail();
    MantissaIsOne(f);
    assert (m + tail)[0] == m[0];
    SignTaken(f.sign, m + tail);
    ExponentFound(m, tail);
    var u := m + tail;
    assert u[..|m|] == m;
    if f.exponent {
      assert u[|m| + 1..] == f.exponentSign + f.digits;
      SignTaken(f.exponentSign, f.digits);
    } else {
      assert u == m;
    }
  }

  /** Every number written with a point or an exponent is parsed as the float it shows. */
  lemma FloatIsParsed(f: FloatText)
    requires f.Proper()
    ensures IsFloat(f.Text()) && (f.point || f.exponent ==> Parse(f.Text()) == Ok(Float(f.Text())))
  {
    hide IsFloat, TrimStart, TrimEnd, ParseI64, HexBlob, Unescape, EqualsIgnoringCase, FloatText.Text, FloatText.Proper;
    FloatIsOne(f);
    if f.point || f.exponent {
      FloatEdges(f);
      NotTrimmed(f.Text());
      PointIsNoInteger(f.Text());
    }
  }

  lemma FloatEdges(f: FloatText)
    requires f.Proper() && (f.point || f.exponent)
    ensures var t := f.Text();
            t != "" && !IsWhitespace(t[0]) && !IsWhitespace(t[|t| - 1]) && ('.' in t || 'e' in t || 'E' in t)
  {
    var t, m, tail := f.Text(), f.Mantissa(), f.Tail();
    MantissaIsOne(f);
    assert t[0] == if f.sign == "" then m[0] else f.sign[0];
    if f.exponent {
      assert t[|t| - 1] == f.digits[|f.digits| - 1];
      assert t[|f.sign| + |m|] in {'e', 'E'};
    } else {
      assert t[|t| - 1] == m[|m| - 1];
      assert t[|f.sign| + |f.whole|] == '.';
    }
  }

  lemma MantissaIsShown(m: string) returns (whole: string, point: bool, fraction: string)
    requires IsMantissa(m)
    ensures AllDigits(whole) && AllDigits(fraction) && (point || fraction == "") && (whole != "" || fraction != "")
    ensures m == whole + if point then "." + fraction else ""
  {
    var k :| 0 <= k <= |m| && MantissaAt(m, k);
    whole, point := m[..k], k < |m|;
    fraction := if point then m[k + 1..] else "";
    SplitAt(m, k);
  }

  lemma SplitAt(m: string, k: nat)
    requires k <= |m|
    ensures m == m[..k] + m[k..] && (k < |m| ==> m[k..] == [m[k]] + m[k + 1..]) && (k == |m| ==> m[..k] == m && m + "" == m)
  {
  }

  lemma SignIsShown(s: string) returns (sign: string)
    ensures IsSign(sign) && s == sign + Unsigned(s)
  {
    sign := if Unsigned(s) == s then "" else s[..1];
    assert "" + s == s;
  }

  /** And nothing else is, save for the words for infinity and not-a-number. */
  lemma FloatIsShown(s: string) returns (f: FloatText)
    requires IsFloat(s)
    requires !EqualsIgnoringCase(Unsigned(s), "inf") && !EqualsIgnoringCase(Unsigned(s), "infinity")
    requires !EqualsIgnoringCase(Unsigned(s), "nan")
    ensures f.Proper() && f.Text() == s
  {
    hide EqualsIgnoringCase, IsMantissa, Unsigned, AllDigits, ExponentAt;
    var u := Unsigned(s);
    var n := ExponentAt(u);
    var sign := SignIsShown(s);
    var whole, point, fraction := MantissaIsShown(u[..n]);
    if n == |u| {
      f := FloatText(sign, whole, point, fraction, false, false, "", "");
      NoDigits();
      assert u[..n] == u && f.Mantissa() + "" == u;
    } else {
      ExponentMark(u);
      var x := u[n + 1..];
      var exponentSign := SignIsShown(x);
      f := FloatText(sign, whole, point, fraction, true, u[n] == 'E', exponentSign, Unsigned(x));
      assert u == u[..n] + ([u[n]] + x);
    }
  }

  lemma NoDigits()
    ensures AllDigits("")
  {
  }

  lemma {:induction false} ExponentMark(s: string)
    ensures ExponentAt(s) < |s| ==> s[ExponentAt(s)] in {'e', 'E'}
  {
    if s != "" && s[0] !in {'e', 'E'} {
      ExponentMark(s[1..]);
    }
  }
}
