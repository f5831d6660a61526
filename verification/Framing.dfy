/** Length-delimited messages: `encode_length_delimited` on the server (`cli/sync_server.rs`) against the
    client that splits the stream again (`read_varint` and `wait_proto_message` in
    `sync/engine/src/database_sync_operations.rs`), after the "Base 128 Varints" rule of the Protocol
    Buffers encoding. */
module Framing {
  import opened Common

  type Message = seq<Byte>

  function Varint(n: nat): (r: seq<Byte>)
    ensures r != []
  {
    if n < 0x80 then [n] else [0x80 + n % 0x80] + Varint(n / 0x80)
  }

  /** A message behind its length. */
  function Delimited(message: Message): seq<Byte> {
    Varint(|message|) + message
  }

  /** `encode_length_delimited`: the bytes appended to the output buffer. */
  method EncodeLengthDelimited(output: seq<Byte>, data: Message) returns (r: seq<Byte>)
    ensures r == output + Delimited(data)
  {
    r := output;
    var len: nat := |data|;
    while len >= 0x80
      invariant r + Varint(len) == output + Varint(|data|)
      decreases len
    {
      assert Varint(len) == [0x80 + len % 0x80] + Varint(len / 0x80);
      r := r + [0x80 + len % 0x80];
      len := len / 0x80;
    }
    r := r + [len];
    r := r + data;
  }

  // ----- The client's side

  datatype VarintRead = Incomplete | Invalid | Complete(value: nat, size: nat)

  /** `read_varint`: at most `budget` bytes, seven bits each, low bits first. */
  function ReadVarint(buf: seq<Byte>, budget: nat): (r: VarintRead)
    ensures r.Complete? ==> 1 <= r.size <= |buf|
  {
    if budget == 0 then Invalid
    else if buf == [] then Incomplete
    else if buf[0] < 0x80 then Complete(buf[0], 1)
    else
      match ReadVarint(buf[1..], budget - 1)
      case Complete(value, size) => Complete(buf[0] - 0x80 + 0x80 * value, size + 1)
      case other => other
  }

  const LENGTH_BUDGET: nat := 9

  function Pow128(k: nat): (p: nat)
    ensures p > 0
  {
    if k == 0 then 1 else 0x80 * Pow128(k - 1)
  }

  /** The client reads back a length exactly when it fits the bytes it is willing to read. */
  lemma {:induction false} ReadsWhatWasWritten(n: nat, rest: seq<Byte>, budget: nat)
    requires budget > 0
    ensures ReadVarint(Varint(n) + rest, budget)
            == if n < Pow128(budget) then Complete(n, |Varint(n)|) else Invalid
    decreases budget
  {
    var buf := Varint(n) + rest;
    if n < 0x80 {
      assert Pow128(budget) >= 0x80;
    } else {
      assert buf[1..] == Varint(n / 0x80) + rest;
      if budget == 1 {
        assert Pow128(1) == 0x80;
      } else {
        ReadsWhatWasWritten(n / 0x80, rest, budget - 1);
        assert n / 0x80 < Pow128(budget - 1) <==> n < 0x80 * Pow128(budget - 1);
      }
    }
  }

  lemma LengthBudgetIs63Bits()
    ensures Pow128(LENGTH_BUDGET) == 0x8000_0000_0000_0000
  {
  }

  datatype StreamError = InvalidLength | UnexpectedEnd

  /** `wait_proto_message` repeated over a finished response body. */
  function Messages(bytes: seq<Byte>): Result<seq<Message>, StreamError>
    decreases |bytes|
  {
    match ReadVarint(bytes, LENGTH_BUDGET)
    case Invalid => Err(InvalidLength)
    case Incomplete => if bytes == [] then Ok([]) else Err(UnexpectedEnd)
    case Complete(length, prefix) =>
      if length + prefix > |bytes| then Err(UnexpectedEnd)
      else
        match Messages(bytes[prefix + length..])
        case Err(e) => Err(e)
        case Ok(rest) => Ok([bytes[prefix..prefix + length]] + rest)
  }

  function Stream(messages: seq<Message>): seq<Byte> {
    if messages == [] then [] else Delimited(messages[0]) + Stream(messages[1..])
  }

  function Then(messages: seq<Message>, rest: Result<seq<Message>, StreamError>): Result<seq<Message>, StreamError> {
    if rest.Ok? then Ok(messages + rest.value) else rest
  }

  lemma FirstMessage(bytes: seq<Byte>, length: nat, prefix: nat)
    requires ReadVarint(bytes, LENGTH_BUDGET) == Complete(length, prefix) && prefix + length <= |bytes|
    ensures Messages(bytes) == Then([bytes[prefix..prefix + length]], Messages(bytes[prefix + length..]))
  {
  }

  lemma ThenTwice(a: seq<Message>, b: seq<Message>, rest: Result<seq<Message>, StreamError>)
    ensures Then([], rest) == rest && Then(a, Then(b, rest)) == Then(a + b, rest)
  {
    if rest.Ok? {
      assert [] + rest.value == rest.value && a + (b + rest.value) == a + b + rest.value;
    }
  }

  /** Framed messages are taken off one by one, whatever follows them. */
  lemma {:induction false} StreamThen(messages: seq<Message>, tail: seq<Byte>)
    requires forall m :: m in messages ==> |m| < 0x8000_0000_0000_0000
    ensures Messages(Stream(messages) + tail) == Then(messages, Messages(tail))
  {
    hide ReadVarint, Varint, Messages, Then;
    if messages == [] {
      assert Stream(messages) + tail == tail;
      ThenTwice([], [], Messages(tail));
    } else {
      var m, rest := messages[0], Stream(messages[1..]) + tail;
      var prefix := |Varint(|m|)|;
      var bytes := Stream(messages) + tail;
      assert bytes == Varint(|m|) + (m + rest);
      ReadsWhatWasWritten(|m|, m + rest, LENGTH_BUDGET);
      LengthBudgetIs63Bits();
      FirstMessage(bytes, |m|, prefix);
      assert bytes[prefix..prefix + |m|] == m && bytes[prefix + |m|..] == rest;
      StreamThen(messages[1..], tail);
      assert messages == [m] + messages[1..];
      ThenTwice([m], messages[1..], Messages(tail));
    }
  }

  /** The client recovers precisely the messages that were framed. */
  lemma StreamRoundTrip(messages: seq<Message>)
    requires forall m :: m in messages ==> |m| < 0x8000_0000_0000_0000
    ensures Messages(Stream(messages)) == Ok(messages)
  {
    StreamThen(messages, []);
    assert Stream(messages) + [] == Stream(messages) && messages + [] == messages;
    assert ReadVarint([], LENGTH_BUDGET) == Incomplete;
  }

  lemma {:induction false} PartOfVarint(n: nat, k: nat, budget: nat)
    requires k < |Varint(n)| && n < Pow128(budget) && budget > 0
    ensures ReadVarint(Varint(n)[..k], budget) == Incomplete
    decreases budget
  {
    if k > 0 {
      assert n / 0x80 < Pow128(budget - 1);
      PartOfVarint(n / 0x80, k - 1, budget - 1);
      assert Varint(n)[..k][1..] == Varint(n / 0x80)[..k - 1];
    }
  }

  /** A body that breaks off inside a message is an error, after however many whole ones. */
  lemma TornStreamIsRefused(messages: seq<Message>, m: Message, k: nat)
    requires forall x :: x in messages + [m] ==> |x| < 0x8000_0000_0000_0000
    requires 0 < k < |Delimited(m)|
    ensures Messages(Stream(messages) + Delimited(m)[..k]) == Err(UnexpectedEnd)
  {
    hide ReadVarint, Varint, Stream;
    forall x | x in messages ensures |x| < 0x8000_0000_0000_0000 {
      assert x in messages + [m];
    }
    assert m == (messages + [m])[|messages|];
    var cut, v := Delimited(m)[..k], Varint(|m|);
    StreamThen(messages, cut);
    LengthBudgetIs63Bits();
    if k < |v| {
      assert cut == v[..k];
      PartOfVarint(|m|, k, LENGTH_BUDGET);
    } else {
      assert cut == v + m[..k - |v|];
      ReadsWhatWasWritten(|m|, m[..k - |v|], LENGTH_BUDGET);
    }
  }

  /** A length of 63 bits or more is an error. */
  lemma LongLengthIsRefused(messages: seq<Message>, length: nat, rest: seq<Byte>)
    requires forall m :: m in messages ==> |m| < 0x8000_0000_0000_0000
    requires length >= 0x8000_0000_0000_0000
    ensures Messages(Stream(messages) + (Varint(length) + rest)) == Err(InvalidLength)
  {
    hide Stream;
    StreamThen(messages, Varint(length) + rest);
    LengthBudgetIs63Bits();
    ReadsWhatWasWritten(length, rest, LENGTH_BUDGET);
  }
}
