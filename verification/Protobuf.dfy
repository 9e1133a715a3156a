/**
 The strict protobuf reader of the endorsement check: varint and
 length-delimited fields are read, fixed-width ones skipped, groups refused.
 Each message has one encoding: over-long varints, 64-bit overflow and field
 number 0 are refused. The printer below is the reference it is proved against.
 */
module Protobuf {
  import opened Prelude

  datatype Error =
    | TruncatedVarint | Overflow | OverLong | TooLong
    | TruncatedField | FieldZero | WireType(w: nat)

  datatype Field = Varint(v: U64) | Delimited(data: Bytes) | Fixed

  /** A value read and what is left of the buffer. */
  datatype Read<+T> = Read(value: T, rest: Bytes)

  datatype Numbered = Numbered(number: nat, field: Field)

  // ----------------------------------------------------------------- varints

  /** `n` shifted left by `k` groups of seven bits. */
  function Shl(n: nat, k: nat): (r: nat) {
    if k == 0 then n else 128 * Shl(n, k - 1)
  }

  lemma {:induction false} ShlAdds(a: nat, b: nat, k: nat)
    ensures Shl(a + b, k) == Shl(a, k) + Shl(b, k)
  {
    if k > 0 {
      ShlAdds(a, b, k - 1);
    }
  }

  lemma {:induction false} ShlStep(n: nat, k: nat)
    ensures Shl(128 * n, k) == Shl(n, k + 1)
  {
    if k > 0 {
      ShlStep(n, k - 1);
    }
  }

  /** The low seven bits of a byte. */
  function Group(b: Byte): nat {
    if b < 128 then b else b - 128
  }

  /** Reads the groups from the `k`-th on; the result is not yet weighted. */
  function VarintFrom(buf: Bytes, k: nat): (r: Result<Read<nat>, Error>)
    requires k <= 10
    ensures r.Ok? ==> |r.value.rest| < |buf|
    decreases 10 - k
  {
    if k == 10 then Err(TooLong)
    else if buf == [] then Err(TruncatedVarint)
    else if k == 9 && buf[0] > 1 then Err(Overflow)
    else if k > 0 && buf[0] == 0 then Err(OverLong)
    else if buf[0] < 128 then Ok(Read(buf[0], buf[1..]))
    else match VarintFrom(buf[1..], k + 1)
      case Ok(r) => Ok(Read(Group(buf[0]) + 128 * r.value, r.rest))
      case Err(e) => Err(e)
  }

  /** The only encoding of `n`. */
  function PrintVarint(n: nat): (b: Bytes)
    ensures |b| > 0
  {
    if n < 128 then [n] else [n % 128 + 128] + PrintVarint(n / 128)
  }

  lemma {:induction false} Reassemble(buf: Bytes, middle: Bytes, rest: Bytes)
    requires buf != [] && buf[1..] == middle + rest
    ensures buf == ([buf[0]] + middle) + rest
  {}

  lemma {:induction false} PrintStep(group: nat, high: nat)
    requires group < 128 && high > 0
    ensures PrintVarint(group + 128 * high) == [group + 128] + PrintVarint(high)
  {
    var n := group + 128 * high;
    assert n % 128 == group && n / 128 == high;
  }

  /** How large the groups from the `k`-th on may be together: 64 bits in all. */
  function Room(k: nat): nat
    requires k <= 9
  {
    Shl(2, 9 - k)
  }

  lemma {:induction false} SixtyFourBits()
    ensures Room(0) == U64_LIMIT && Room(9) == 2
  {}

  lemma {:induction false} PrintedVarintIsRead(n: nat, rest: Bytes, k: nat)
    requires k <= 9 && n < Room(k) && (k > 0 ==> n > 0)
    ensures VarintFrom(PrintVarint(n) + rest, k) == Ok(Read(n, rest))
    decreases 9 - k
  {
    var buf := PrintVarint(n) + rest;
    if n < 128 {
      assert buf[1..] == rest;
    } else {
      assert k < 9 && Room(k) == 128 * Room(k + 1);
      var high := n / 128;
      assert n == 128 * high + n % 128 && high < Room(k + 1);
      PrintedVarintIsRead(high, rest, k + 1);
      FirstGroupIsRead(buf, n % 128, high, rest, k);
    }
  }

  lemma {:induction false} FirstGroupIsRead(buf: Bytes, group: nat, high: nat, rest: Bytes, k: nat)
    requires k < 9 && group < 128 && VarintFrom(PrintVarint(high) + rest, k + 1) == Ok(Read(high, rest))
    requires buf == ([group + 128] + PrintVarint(high)) + rest
    ensures VarintFrom(buf, k) == Ok(Read(group + 128 * high, rest))
  {
    assert buf[1..] == PrintVarint(high) + rest;
  }

  lemma {:induction false} ShlPositive(k: nat)
    requires k > 0
    ensures Shl(2, k) >= 128
  {
    if k > 1 {
      ShlPositive(k - 1);
    }
  }

  lemma {:induction false} ReadVarintIsPrinted(buf: Bytes, k: nat)
    requires k <= 9
    ensures VarintFrom(buf, k) != Err(TooLong)
    ensures var r := VarintFrom(buf, k); r.Ok? ==>
      && r.value.value < Room(k)
      && (k > 0 ==> r.value.value > 0)
      && buf == PrintVarint(r.value.value) + r.value.rest
    decreases 9 - k
  {
    if buf != [] && buf[0] >= 128 && k < 9 {
      assert Room(k) == 128 * Room(k + 1);
      ReadVarintIsPrinted(buf[1..], k + 1);
      var r := VarintFrom(buf[1..], k + 1);
      if r.Ok? {
        PrintStep(buf[0] - 128, r.value.value);
        Reassemble(buf, PrintVarint(r.value.value), r.value.rest);
      }
    } else if buf != [] && k < 9 {
      ShlPositive(9 - k);
      assert buf == [buf[0]] + buf[1..];
    } else if buf != [] {
      assert buf == [buf[0]] + buf[1..];
    }
  }

  function ReadVarint(buf: Bytes): (r: Result<Read<U64>, Error>)
    ensures r.Ok? ==> |r.value.rest| < |buf|
  {
    SixtyFourBits();
    ReadVarintIsPrinted(buf, 0);
    match VarintFrom(buf, 0)
    case Ok(r) => Ok(Read(r.value, r.rest))
    case Err(e) => Err(e)
  }

  /** The reader accepts exactly the printer's outputs, and never exits with "varint too long". */
  lemma {:induction false} VarintIsCanonical(buf: Bytes, n: nat, rest: Bytes)
    ensures ReadVarint(buf) == Ok(Read(n, rest)) <==> n < U64_LIMIT && buf == PrintVarint(n) + rest
    ensures ReadVarint(buf) != Err(TooLong)
  {
    SixtyFourBits();
    ReadVarintIsPrinted(buf, 0);
    if n < U64_LIMIT && buf == PrintVarint(n) + rest {
      PrintedVarintIsRead(n, rest, 0);
    }
  }

  /** The tail read from the `k`-th group on, put behind the groups already in `value`. */
  function Behind(value: nat, k: nat, tail: Result<Read<nat>, Error>): Result<Read<nat>, Error> {
    match tail
    case Ok(t) => Ok(Read(value + Shl(t.value, k), t.rest))
    case Err(e) => Err(e)
  }

  /** Moving one group from the tail into the value. */
  lemma {:induction false} GroupMoves(value: nat, group: nat, k: nat, t: nat)
    requires group < 128
    ensures value + Shl(group + 128 * t, k) == (value + Shl(group, k)) + Shl(t, k + 1)
    ensures value < Shl(1, k) ==> value + Shl(group, k) < Shl(1, k + 1)
  {
    ShlAdds(group, 128 * t, k);
    ShlStep(t, k);
    ShlAdds(group, 127 - group, k);
    ShlAdds(127, 1, k);
    ShlStep(1, k);
  }

  lemma {:induction false} FinishedVarint(buf: Bytes, n: nat, rest: Bytes)
    requires VarintFrom(buf, 0) == Ok(Read(n, rest))
    ensures n < U64_LIMIT && ReadVarint(buf) == Ok(Read(n, rest))
  {
    SixtyFourBits();
    ReadVarintIsPrinted(buf, 0);
  }

  lemma {:induction false} LastGroup(buf: Bytes, value: nat, k: nat, rest: Bytes)
    requires rest != [] && rest[0] < 128 && VarintFrom(buf, 0) == Behind(value, k, Ok(Read(rest[0], rest[1..])))
    ensures value + Shl(rest[0], k) < U64_LIMIT
    ensures ReadVarint(buf) == Ok(Read(value + Shl(rest[0], k), rest[1..]))
  {
    hide VarintFrom, Shl, ReadVarint;
    FinishedVarint(buf, value + Shl(rest[0], k), rest[1..]);
  }

  lemma {:induction false} OneMoreGroup(value: nat, group: nat, k: nat, tail: Result<Read<nat>, Error>)
    requires group < 128
    ensures tail.Ok? ==>
      Behind(value, k, Ok(Read(group + 128 * tail.value.value, tail.value.rest))) == Behind(value + Shl(group, k), k + 1, tail)
    ensures value < Shl(1, k) ==> value + Shl(group, k) < Shl(1, k + 1)
  {
    GroupMoves(value, group, k, if tail.Ok? then tail.value.value else 0);
  }

  /** The loop of the code: ten groups at most, the value assembled from its low end. */
  method Varint(buf: Bytes) returns (r: Result<Read<U64>, Error>)
    ensures r == ReadVarint(buf)
  {
    var value: nat, rest := 0, buf;
    for k := 0 to 10
      invariant value < Shl(1, k)
      invariant VarintFrom(buf, 0) == Behind(value, k, VarintFrom(rest, k))
    {
      if rest == [] {
        return Err(TruncatedVarint);
      }
      var byte := rest[0];
      if k == 9 && byte > 1 {
        return Err(Overflow);
      }
      if k > 0 && byte == 0 {
        return Err(OverLong);
      }
      ghost var before := value;
      // `value` is below 128 to the k, so setting the group's bits is adding them.
      value := value + Shl(Group(byte), k);
      if byte < 128 {
        LastGroup(buf, before, k, rest);
        return Ok(Read(value, rest[1..]));
      }
      OneMoreGroup(before, byte - 128, k, VarintFrom(rest[1..], k + 1));
      rest := rest[1..];
    }
    r := Err(TooLong);
  }

  // ---------------------------------------------------------------- messages

  function TakeFrom(buf: Bytes, len: U64): (r: Result<Read<Bytes>, Error>)
    ensures r.Ok? <==> len <= |buf|
    ensures r.Ok? ==> |r.value.value| == len && buf == r.value.value + r.value.rest
  {
    if len <= |buf| then Ok(Read(buf[..len], buf[len..])) else Err(TruncatedField)
  }

  /** A field's value, once its key is read. */
  function ReadPayload(number: nat, wireType: nat, buf: Bytes): (r: Result<Read<Numbered>, Error>)
    ensures r.Ok? ==> |r.value.rest| <= |buf| && r.value.value.number == number
  {
    match wireType
    case 0 => (match ReadVarint(buf)
               case Err(e) => Err(e)
               case Ok(v) => Ok(Read(Numbered(number, Field.Varint(v.value)), v.rest)))
    case 1 => Skipped(number, TakeFrom(buf, 8))
    case 2 => (match ReadVarint(buf)
               case Err(e) => Err(e)
               case Ok(len) => match TakeFrom(len.rest, len.value)
                               case Err(e) => Err(e)
                               case Ok(t) => Ok(Read(Numbered(number, Delimited(t.value)), t.rest)))
    case 5 => Skipped(number, TakeFrom(buf, 4))
    case w => Err(WireType(w))
  }

  function Skipped(number: nat, taken: Result<Read<Bytes>, Error>): Result<Read<Numbered>, Error> {
    match taken
    case Err(e) => Err(e)
    case Ok(t) => Ok(Read(Numbered(number, Fixed), t.rest))
  }

  /** One field: its key, then its value. */
  function ReadField(buf: Bytes): (r: Result<Read<Numbered>, Error>)
    ensures r.Ok? ==> |r.value.rest| < |buf|
  {
    match ReadVarint(buf)
    case Err(e) => Err(e)
    case Ok(key) =>
      if key.value / 8 == 0 then Err(FieldZero) else ReadPayload(key.value / 8, key.value % 8, key.rest)
  }

  /** What `fields` answers. */
  function Parsed(buf: Bytes): Result<seq<Numbered>, Error>
    decreases |buf|
  {
    if buf == [] then Ok([])
    else match ReadField(buf)
      case Err(e) => Err(e)
      case Ok(first) => Prepend([first.value], Parsed(first.rest))
  }

  /** The fields `out`, then what the rest of the message parses to. */
  function Prepend(out: seq<Numbered>, others: Result<seq<Numbered>, Error>): Result<seq<Numbered>, Error> {
    match others
    case Err(e) => Err(e)
    case Ok(fs) => Ok(out + fs)
  }

  lemma {:induction false} PrependLaws(out: seq<Numbered>, more: seq<Numbered>, others: Result<seq<Numbered>, Error>)
    ensures Prepend([], others) == others
    ensures Prepend(out, Prepend(more, others)) == Prepend(out + more, others)
  {
    if others.Ok? {
      assert [] + others.value == others.value;
      assert out + (more + others.value) == (out + more) + others.value;
    }
  }

  method Take(buf: Bytes, len: U64) returns (r: Result<Read<Bytes>, Error>)
    ensures r == TakeFrom(buf, len)
  {
    if len > |buf| {
      return Err(TruncatedField);
    }
    r := Ok(Read(buf[..len], buf[len..]));
  }

  method Payload(number: nat, wireType: nat, buf: Bytes) returns (r: Result<Read<Numbered>, Error>)
    ensures r == ReadPayload(number, wireType, buf)
  {
    match wireType {
      case 0 =>
        var v := Varint(buf);
        if v.Err? { return Err(v.error); }
        r := Ok(Read(Numbered(number, Field.Varint(v.value.value)), v.value.rest));
      case 2 =>
        var len := Varint(buf);
        if len.Err? { return Err(len.error); }
        var t := Take(len.value.rest, len.value.value);
        if t.Err? { return Err(t.error); }
        r := Ok(Read(Numbered(number, Delimited(t.value.value)), t.value.rest));
      case _ =>
        if wireType != 1 && wireType != 5 { return Err(WireType(wireType)); }
        var t := Take(buf, if wireType == 1 then 8 else 4);
        if t.Err? { return Err(t.error); }
        r := Ok(Read(Numbered(number, Fixed), t.value.rest));
    }
  }

  method Fields(message: Bytes) returns (r: Result<seq<Numbered>, Error>)
    ensures r == Parsed(message)
  {
    var buf, out := message, [];
    PrependLaws([], [], Parsed(message));
    while buf != []
      invariant Parsed(message) == Prepend(out, Parsed(buf))
      decreases |buf|
    {
      var key := Varint(buf);
      if key.Err? {
        return Err(key.error);
      }
      var number := key.value.value / 8;
      if number == 0 {
        return Err(FieldZero);
      }
      var field := Payload(number, key.value.value % 8, key.value.rest);
      if field.Err? {
        return Err(field.error);
      }
      var rest := field.value.rest;
      assert ReadField(buf) == field;
      PrependLaws(out, [field.value.value], Parsed(rest));
      out, buf := out + [field.value.value], rest;
    }
    assert out + [] == out;
    r := Ok(out);
  }

  // --------------------------------------------- the printer and its relation

  function WireOf(f: Field): nat
    requires !f.Fixed?
  {
    if f.Varint? then 0 else 2
  }

  predicate ValidNumber(number: nat) {
    0 < number && 8 * number + 7 < U64_LIMIT
  }

  function PrintPayload(f: Field): Bytes
    requires !f.Fixed?
  {
    match f
    case Varint(v) => PrintVarint(v)
    case Delimited(data) => PrintVarint(|data|) + data
  }

  function PrintField(f: Numbered): (b: Bytes)
    requires !f.field.Fixed?
    ensures |b| > 0
  {
    PrintVarint(8 * f.number + WireOf(f.field)) + PrintPayload(f.field)
  }

  /** A message of varint and length-delimited fields. */
  predicate Printable(fs: seq<Numbered>) {
    forall i :: 0 <= i < |fs| ==>
      && !fs[i].field.Fixed?
      && ValidNumber(fs[i].number)
      && (fs[i].field.Delimited? ==> |fs[i].field.data| < U64_LIMIT)
  }

  function Print(fs: seq<Numbered>): Bytes
    requires Printable(fs)
  {
    if fs == [] then [] else PrintField(fs[0]) + Print(fs[1..])
  }

  /** `payload` is the value of a field of this wire type; a skipped field hides 8 or 4 bytes. */
  predicate EncodesPayload(payload: Bytes, wireType: nat, f: Field) {
    match f
    case Varint(v) => wireType == 0 && payload == PrintVarint(v)
    case Delimited(data) => wireType == 2 && |data| < U64_LIMIT && payload == PrintVarint(|data|) + data
    case Fixed => (wireType == 1 && |payload| == 8) || (wireType == 5 && |payload| == 4)
  }

  lemma {:induction false} PayloadRoundTrip(buf: Bytes, number: nat, wireType: nat, f: Field, rest: Bytes)
    ensures ReadPayload(number, wireType, buf) == Ok(Read(Numbered(number, f), rest))
       <==> |rest| <= |buf| && buf[|buf| - |rest|..] == rest && EncodesPayload(buf[..|buf| - |rest|], wireType, f)
  {
    hide ReadVarint, PrintVarint;
    if |rest| <= |buf| {
      var payload := buf[..|buf| - |rest|];
      assert buf == payload + buf[|buf| - |rest|..];
      match f {
        case Varint(v) => VarintIsCanonical(buf, v, rest);
        case Delimited(data) =>
          VarintIsCanonical(buf, |data|, data + rest);
          assert (PrintVarint(|data|) + data) + rest == PrintVarint(|data|) + (data + rest);
          if |data + rest| <= |buf| {
            assert (data + rest)[..|data|] == data && (data + rest)[|data|..] == rest;
          }
        case Fixed =>
      }
    }
  }

  /** `prefix` is an encoding of the one field `f`. */
  ghost predicate EncodesField(prefix: Bytes, f: Numbered) {
    exists key, wireType, payload ::
      && key == 8 * f.number + wireType && 0 <= wireType < 8 && ValidNumber(f.number)
      && EncodesPayload(payload, wireType, f.field)
      && prefix == PrintVarint(key) + payload
  }

  /** What was read of `buf` when `rest` is left. */
  function Consumed(buf: Bytes, rest: Bytes): Bytes
    requires |rest| <= |buf|
  {
    buf[..|buf| - |rest|]
  }

  lemma {:induction false} ReadFieldEncodes(buf: Bytes)
    requires ReadField(buf).Ok?
    ensures var r := ReadField(buf).value;
      && EncodesField(Consumed(buf, r.rest), r.value)
      && buf == Consumed(buf, r.rest) + r.rest
  {
    var key := ReadVarint(buf).value;
    VarintIsCanonical(buf, key.value, key.rest);
    SplitKey(key.value);
    var number, wireType := key.value / 8, key.value % 8;
    PayloadAfterKeyEncodes(buf, key.value, number, wireType, key.rest, ReadField(buf).value);
  }

  lemma {:induction false} PayloadAfterKeyEncodes(buf: Bytes, key: nat, number: nat, wireType: nat, tail: Bytes,
                                                  r: Read<Numbered>)
    requires key == 8 * number + wireType && wireType < 8 && ValidNumber(number)
    requires buf == PrintVarint(key) + tail
    requires ReadPayload(number, wireType, tail) == Ok(r)
    ensures |r.rest| <= |buf| && EncodesField(Consumed(buf, r.rest), r.value)
    ensures buf == Consumed(buf, r.rest) + r.rest
  {
    PayloadRoundTrip(tail, number, wireType, r.value.field, r.rest);
    ConsumedAppends(PrintVarint(key), tail, r.rest);
  }

  lemma {:induction false} ConsumedAppends(head: Bytes, tail: Bytes, rest: Bytes)
    requires |rest| <= |tail| && tail[|tail| - |rest|..] == rest
    ensures Consumed(head + tail, rest) == head + Consumed(tail, rest)
    ensures head + tail == Consumed(head + tail, rest) + rest
  {}

  lemma {:induction false} SplitKey(key: U64)
    requires key / 8 != 0
    ensures key == 8 * (key / 8) + key % 8 && ValidNumber(key / 8)
  {}

  lemma {:induction false} KeyParts(key: nat, number: nat, wireType: nat)
    requires key == 8 * number + wireType && wireType < 8
    ensures key / 8 == number && key % 8 == wireType
  {}

  lemma {:induction false} EncodedFieldIsRead(prefix: Bytes, f: Numbered, rest: Bytes)
    requires EncodesField(prefix, f)
    ensures ReadField(prefix + rest) == Ok(Read(f, rest))
  {
    var key, wireType, payload :|
      && key == 8 * f.number + wireType && 0 <= wireType < 8 && ValidNumber(f.number)
      && EncodesPayload(payload, wireType, f.field)
      && prefix == PrintVarint(key) + payload;
    var tail := payload + rest;
    assert prefix + rest == PrintVarint(key) + tail;
    KeyParts(key, f.number, wireType);
    VarintIsCanonical(prefix + rest, key, tail);
    PayloadRoundTrip(tail, f.number, wireType, f.field, rest);
    assert tail[..|tail| - |rest|] == payload && tail[|tail| - |rest|..] == rest;
  }

  /** `buf` is a concatenation of encodings of the fields `fs`, in order. */
  ghost predicate Encodes(buf: Bytes, fs: seq<Numbered>)
    decreases |fs|
  {
    if fs == [] then buf == []
    else exists prefix, rest :: EncodesField(prefix, fs[0]) && buf == prefix + rest && Encodes(rest, fs[1..])
  }

  /** The reader accepts exactly the encodings, and says which fields they encode. */
  lemma {:induction false} ReaderAcceptsExactlyEncodings(buf: Bytes, fs: seq<Numbered>)
    ensures Parsed(buf) == Ok(fs) <==> Encodes(buf, fs)
    decreases |buf|
  {
    if Parsed(buf) == Ok(fs) && buf != [] {
      var first := ReadField(buf).value;
      ReadFieldEncodes(buf);
      ReaderAcceptsExactlyEncodings(first.rest, fs[1..]);
    }
    if Encodes(buf, fs) && fs != [] {
      var prefix, rest :| EncodesField(prefix, fs[0]) && buf == prefix + rest && Encodes(rest, fs[1..]);
      EncodedFieldIsRead(prefix, fs[0], rest);
      ReaderAcceptsExactlyEncodings(rest, fs[1..]);
      assert fs == [fs[0]] + fs[1..];
    }
  }

  lemma {:induction false} EncodingIsThePrintOfField(prefix: Bytes, f: Numbered)
    requires !f.field.Fixed?
    ensures EncodesField(prefix, f) <==> Printable([f]) && prefix == PrintField(f)
  {
    if Printable([f]) && prefix == PrintField(f) {
      assert [f][0] == f;
      assert EncodesPayload(PrintPayload(f.field), WireOf(f.field), f.field);
    }
  }

  lemma {:induction false} EncodingIsThePrint(buf: Bytes, fs: seq<Numbered>)
    requires forall i :: 0 <= i < |fs| ==> !fs[i].field.Fixed?
    ensures Encodes(buf, fs) <==> Printable(fs) && buf == Print(fs)
    decreases |fs|
  {
    if fs != [] {
      var f, others := fs[0], fs[1..];
      assert Printable(fs) <==> Printable([f]) && Printable(others) by {
        assert fs == [f] + others;
      }
      if Encodes(buf, fs) {
        var prefix, rest :| EncodesField(prefix, f) && buf == prefix + rest && Encodes(rest, others);
        EncodingIsThePrintOfField(prefix, f);
        EncodingIsThePrint(rest, others);
      }
      if Printable(fs) && buf == Print(fs) {
        var prefix, rest := PrintField(f), Print(others);
        EncodingIsThePrintOfField(prefix, f);
        EncodingIsThePrint(rest, others);
        assert EncodesField(prefix, f) && buf == prefix + rest;
      }
    }
  }

  /**
   Canonical: for messages of varint and length-delimited fields, parsing is the
   inverse of printing in both directions, so a message has one encoding.
   */
  lemma {:induction false} MessagesAreCanonical(buf: Bytes, fs: seq<Numbered>)
    requires forall i :: 0 <= i < |fs| ==> !fs[i].field.Fixed?
    ensures Parsed(buf) == Ok(fs) <==> Printable(fs) && buf == Print(fs)
  {
    ReaderAcceptsExactlyEncodings(buf, fs);
    EncodingIsThePrint(buf, fs);
  }

  lemma {:induction false} ReadFieldIgnoresWhatFollows(buf: Bytes, more: Bytes)
    requires ReadField(buf).Ok?
    ensures ReadField(buf + more) == Ok(Read(ReadField(buf).value.value, ReadField(buf).value.rest + more))
  {
    var r := ReadField(buf).value;
    ReadFieldEncodes(buf);
    var prefix := Consumed(buf, r.rest);
    assert buf + more == prefix + (r.rest + more);
    EncodedFieldIsRead(prefix, r.value, r.rest + more);
  }

  /** After an accepted message the reader goes on with what follows: errors included. */
  lemma {:induction false} ParseOfConcatenation(buf: Bytes, more: Bytes)
    requires Parsed(buf).Ok?
    ensures Parsed(buf + more) == Prepend(Parsed(buf).value, Parsed(more))
    decreases |buf|
  {
    if buf == [] {
      assert buf + more == more;
      PrependLaws([], [], Parsed(more));
    } else {
      ReadFieldIgnoresWhatFollows(buf, more);
      var first := ReadField(buf).value;
      ParseOfConcatenation(first.rest, more);
      PrependLaws([first.value], Parsed(first.rest).value, Parsed(more));
    }
  }

  /** "Varint too long" is not among the answers of the reader. */
  lemma {:induction false} TooLongIsUnreachable(buf: Bytes)
    ensures Parsed(buf) != Err(TooLong)
    decreases |buf|
  {
    if buf != [] {
      VarintIsCanonical(buf, 0, []);
      if ReadVarint(buf).Ok? {
        VarintIsCanonical(ReadVarint(buf).value.rest, 0, []);
      }
      if ReadField(buf).Ok? {
        TooLongIsUnreachable(ReadField(buf).value.rest);
      }
    }
  }

  // ------------------------------------------------------- why a message is refused

  /**
   Why a varint is not read, `k` bytes in, where all before it go on: the buffer
   ends, the tenth byte is above one, or a byte after the first is zero.
   */
  predicate VarintFails(buf: Bytes, k: int, e: Error) {
    && 0 <= k <= 9 && k <= |buf| && (forall i :: 0 <= i < k ==> buf[i] >= 128)
    && if k == |buf| then e == TruncatedVarint
       else if k == 9 && buf[k] > 1 then e == Overflow
       else k > 0 && buf[k] == 0 && e == OverLong
  }

  lemma {:induction false} WhyNoVarintFrom(buf: Bytes, from: nat, e: Error) returns (k: nat)
    requires from <= 9 && VarintFrom(buf, from) == Err(e)
    ensures from + k <= 9 && k <= |buf| && forall i :: 0 <= i < k ==> buf[i] >= 128
    ensures if k == |buf| then e == TruncatedVarint
            else if from + k == 9 && buf[k] > 1 then e == Overflow
            else from + k > 0 && buf[k] == 0 && e == OverLong
    decreases 10 - from
  {
    if buf != [] && !(from == 9 && buf[0] > 1) && !(from > 0 && buf[0] == 0) {
      k := WhyNoVarintFrom(buf[1..], from + 1, e);
      assert forall i :: 0 < i <= k ==> buf[i] == buf[1..][i - 1];
      assert k < |buf[1..]| ==> buf[1..][k] == buf[k + 1];
      k := k + 1;
    } else {
      k := 0;
    }
  }

  lemma {:induction false} WhyNoVarint(buf: Bytes, e: Error)
    requires ReadVarint(buf) == Err(e)
    ensures exists k :: VarintFails(buf, k, e)
  {
    var k := WhyNoVarintFrom(buf, 0, e);
    assert VarintFails(buf, k, e);
  }

  /** Why a field is not read: its key, the field number zero, its wire type, or a value that is not all there. */
  lemma {:induction false} WhyNoField(buf: Bytes, e: Error)
    requires ReadField(buf) == Err(e)
    ensures match ReadVarint(buf)
            case Err(e') => e == e'
            case Ok(Read(key, rest)) =>
              if key < 8 then e == FieldZero
              else if key % 8 in {3, 4, 6, 7} then e == WireType(key % 8)
              else if key % 8 == 0 then ReadVarint(rest) == Err(e)
              else if key % 8 == 1 then |rest| < 8 && e == TruncatedField
              else if key % 8 == 5 then |rest| < 4 && e == TruncatedField
              else match ReadVarint(rest)
                case Err(e') => e == e'
                case Ok(Read(length, data)) => |data| < length && e == TruncatedField
  {
    hide ReadVarint;
  }

  /** A message is refused for its first bad field, whatever follows. */
  lemma {:induction false} WhyNoMessage(buf: Bytes, e: Error) returns (head: Bytes, tail: Bytes)
    requires Parsed(buf) == Err(e)
    ensures buf == head + tail && Parsed(head).Ok? && tail != [] && ReadField(tail) == Err(e)
    decreases |buf|
  {
    hide ReadField;
    if ReadField(buf).Err? {
      head, tail := [], buf;
    } else {
      var first := ReadField(buf).value;
      var inner: Bytes;
      inner, tail := WhyNoMessage(first.rest, e);
      ReadFieldEncodes(buf);
      var prefix := Consumed(buf, first.rest);
      EncodedFieldIsRead(prefix, first.value, inner);
      head := prefix + inner;
      assert buf == prefix + first.rest;
    }
  }
}
