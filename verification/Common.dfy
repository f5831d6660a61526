/** Vocabulary shared by the models: bytes, optional values, results and the numerals
    that revisions and parameter markers are written in. */
module Common {

  type Byte = b: int | 0 <= b < 256

  datatype Option<+T> = None | Some(value: T)

  datatype Result<+T, +E> = Ok(value: T) | Err(error: E)

  const U64_LIMIT: nat := 0x1_0000_0000_0000_0000

  /** The value of a little-endian byte string. */
  function LittleEndian(bytes: seq<Byte>): nat {
    if bytes == [] then 0 else bytes[0] + 256 * LittleEndian(bytes[1..])
  }

  /** `to_le_bytes` at a given width. */
  function LittleEndianBytes(n: nat, width: nat): (bytes: seq<Byte>)
    ensures |bytes| == width
  {
    if width == 0 then [] else [n % 256] + LittleEndianBytes(n / 256, width - 1)
  }

  function Pow256(width: nat): nat {
    if width == 0 then 1 else 256 * Pow256(width - 1)
  }

  lemma {:induction false} LittleEndianRoundTrip(n: nat, width: nat)
    requires n < Pow256(width)
    ensures LittleEndian(LittleEndianBytes(n, width)) == n
  {
    if width > 0 {
      LittleEndianRoundTrip(n / 256, width - 1);
      assert LittleEndianBytes(n, width)[1..] == LittleEndianBytes(n / 256, width - 1);
    }
  }

  /** The widths in use. */
  lemma Widths()
    ensures Pow256(2) == 0x1_0000 && Pow256(4) == 0x1_0000_0000 && Pow256(8) == U64_LIMIT
  {
    assert Pow256(3) == 0x100_0000;
    assert Pow256(6) == 0x1_0000 * Pow256(4);
  }

  predicate IsDigit(c: char) {
    '0' <= c <= '9'
  }

  function Digit(n: nat): (c: char)
    requires n < 10
    ensures IsDigit(c)
  {
    n as char + '0'
  }

  function DigitValue(c: char): (n: nat)
    requires IsDigit(c)
    ensures n < 10
  {
    (c - '0') as nat
  }

  /** `format!("{n}")` for an unsigned integer. */
  function Decimal(n: nat): (s: string)
    ensures s != [] && forall i :: 0 <= i < |s| ==> IsDigit(s[i])
  {
    if n < 10 then [Digit(n)] else Decimal(n / 10) + [Digit(n % 10)]
  }

  /** The value of a run of digits, `None` if some character is not a digit. */
  function DigitsValue(s: string): Option<nat> {
    if s == [] then Some(0)
    else
      var c := s[|s| - 1];
      match DigitsValue(s[..|s| - 1])
      case Some(n) => if IsDigit(c) then Some(10 * n + DigitValue(c)) else None
      case None => None
  }

  /** `str::parse::<u64>`: an optional plus sign, at least one digit, no overflow. */
  function ParseU64(s: string): Option<nat> {
    var digits := if s != [] && s[0] == '+' then s[1..] else s;
    if digits == [] then None
    else
      match DigitsValue(digits)
      case Some(n) => if n < U64_LIMIT then Some(n) else None
      case None => None
  }

  lemma {:induction false} DecimalValue(n: nat)
    ensures DigitsValue(Decimal(n)) == Some(n)
  {
    if n < 10 {
      assert Decimal(n)[..0] == [];
    } else {
      DecimalValue(n / 10);
      assert Decimal(n)[..|Decimal(n)| - 1] == Decimal(n / 10);
    }
  }

  /** Printing then parsing an unsigned integer gives it back exactly when it fits 64 bits. */
  lemma ParseOfDecimal(n: nat)
    ensures ParseU64(Decimal(n)) == if n < U64_LIMIT then Some(n) else None
  {
    DecimalValue(n);
    assert Decimal(n)[0] != '+';
  }

  lemma {:induction false} NonDigitSpoils(s: string, k: nat)
    requires k < |s| && !IsDigit(s[k])
    ensures DigitsValue(s).None?
  {
    if k < |s| - 1 {
      NonDigitSpoils(s[..|s| - 1], k);
    }
  }

  /** Nothing that is not a run of digits, with or without a plus, is a number. */
  lemma ParseOfJunk(s: string, k: nat)
    requires s == "" || s == "+" || (k < |s| && !IsDigit(s[k]) && (k > 0 || s[k] != '+'))
    ensures ParseU64(s).None?
  {
    if s != "" && s != "+" {
      if s[0] == '+' {
        NonDigitSpoils(s[1..], k - 1);
      } else {
        NonDigitSpoils(s, k);
      }
    }
  }

  /** A plus in front changes nothing. */
  lemma ParseOfPlus(n: nat)
    ensures ParseU64("+" + Decimal(n)) == ParseU64(Decimal(n))
  {
    assert ("+" + Decimal(n))[1..] == Decimal(n) && Decimal(n)[0] != '+';
  }
}
