/**
 The printed form of a TPMS_ATTEST quote (TPM 2.0 Library Part 2, sections
 10.6.2, 10.9.7 and 10.12), as a reference for its parser: what is read is
 what was printed, and nothing that was not printed is read.
 */
module TpmAttest {
  import opened Prelude
  import opened TpmQuote

  datatype Attest = Attest(
    magic: nat,
    attestType: nat,
    signer: Bytes,
    extra: Bytes,
    clockAndFirmware: Bytes,
    selections: seq<Selection>,
    digest: Bytes)
  {
    function Info(): QuoteInfo {
      QuoteInfo(attestType, AlgsOf(selections), SelectedBy(selections), digest)
    }
  }

  predicate SelectionFits(s: Selection) {
    s.alg < Power256(2) && |s.bitmap| < Power256(1)
  }

  predicate Fits(a: Attest) {
    && a.magic < Power256(4) && a.attestType < Power256(2)
    && |a.signer| < Power256(2) && |a.extra| < Power256(2) && |a.digest| < Power256(2)
    && |a.clockAndFirmware| == 25
    && |a.selections| < Power256(4)
    && forall i :: 0 <= i < |a.selections| ==> SelectionFits(a.selections[i])
  }

  // Printers take what follows, so that reading goes left to right.

  function PrintSized(data: Bytes, rest: Bytes): Bytes {
    BigEndian(|data|, 2) + (data + rest)
  }

  function PrintSelection(s: Selection, rest: Bytes): Bytes {
    BigEndian(s.alg, 2) + (BigEndian(|s.bitmap|, 1) + (s.bitmap + rest))
  }

  function PrintSelections(s: seq<Selection>, rest: Bytes): Bytes {
    if s == [] then rest else PrintSelection(s[0], PrintSelections(s[1..], rest))
  }

  function PrintAttested(a: Attest, rest: Bytes): Bytes {
    BigEndian(|a.selections|, 4) + PrintSelections(a.selections, PrintSized(a.digest, rest))
  }

  function PrintTail(a: Attest, rest: Bytes): Bytes {
    PrintSized(a.signer, PrintSized(a.extra, a.clockAndFirmware + PrintAttested(a, rest)))
  }

  /** The message that says `a`, followed by `rest`. */
  function Print(a: Attest, rest: Bytes): Bytes {
    BigEndian(a.magic, 4) + (BigEndian(a.attestType, 2) + PrintTail(a, rest))
  }

  // ------------------------------------------------------ printed, then read

  /** From `offset` on, `message` is `tail`. */
  predicate From(message: Bytes, offset: nat, tail: Bytes) {
    offset + |tail| == |message| && forall i :: 0 <= i < |tail| ==> tail[i] == message[offset + i]
  }

  lemma {:induction false} Skip(message: Bytes, offset: nat, data: Bytes, rest: Bytes)
    requires From(message, offset, data + rest)
    ensures From(message, offset + |data|, rest) && message[offset..offset + |data|] == data
  {
    var tail := data + rest;
    forall i | 0 <= i < |rest| ensures rest[i] == message[offset + |data| + i] {
      assert rest[i] == tail[|data| + i];
    }
    forall i | 0 <= i < |data| ensures data[i] == message[offset + i] {
      assert data[i] == tail[i];
    }
  }

  lemma {:induction false} ReadNumber(message: Bytes, offset: nat, n: nat, width: nat, rest: Bytes, part: Part)
    requires n < Power256(width) && From(message, offset, BigEndian(n, width) + rest)
    ensures ReadBe(message, offset, width, part) == Ok(n) && From(message, offset + width, rest)
  {
    Skip(message, offset, BigEndian(n, width), rest);
    BigEndianRoundTrip(n, width);
  }

  lemma {:induction false} ReadSized(message: Bytes, offset: nat, data: Bytes, rest: Bytes, part: Part)
    requires |data| < Power256(2) && From(message, offset, PrintSized(data, rest))
    ensures ReadBe(message, offset, 2, part) == Ok(|data|)
    ensures From(message, offset + 2 + |data|, rest) && message[offset + 2..offset + 2 + |data|] == data
  {
    ReadNumber(message, offset, |data|, 2, data + rest, part);
    Skip(message, offset + 2, data, rest);
  }

  lemma {:induction false} OneByte(n: nat)
    requires n < 256
    ensures BigEndian(n, 1) == [n]
  {}

  lemma {:induction false} ReadPrintedSelection(message: Bytes, offset: nat, s: Selection, rest: Bytes)
    requires SelectionFits(s) && From(message, offset, PrintSelection(s, rest))
    ensures ReadSelection(message, offset) == Ok((s, offset + 3 + |s.bitmap|))
    ensures From(message, offset + 3 + |s.bitmap|, rest)
  {
    SmallPowers();
    OneByte(|s.bitmap|);
    ReadNumber(message, offset, s.alg, 2, BigEndian(|s.bitmap|, 1) + (s.bitmap + rest), HashAlg);
    Skip(message, offset + 2, BigEndian(|s.bitmap|, 1), s.bitmap + rest);
    Skip(message, offset + 3, s.bitmap, rest);
  }

  lemma {:induction false} ReadPrintedSelections(message: Bytes, offset: nat, s: seq<Selection>, rest: Bytes)
    requires (forall i :: 0 <= i < |s| ==> SelectionFits(s[i])) && From(message, offset, PrintSelections(s, rest))
    ensures ReadSelections(message, offset, |s|).Ok?
    ensures var r := ReadSelections(message, offset, |s|).value; r.0 == s && From(message, r.1, rest)
    decreases |s|
  {
    if s != [] {
      var next := offset + 3 + |s[0].bitmap|;
      ReadPrintedSelection(message, offset, s[0], PrintSelections(s[1..], rest));
      ReadPrintedSelections(message, next, s[1..], rest);
      FirstAndOthers(message, offset, s, next, ReadSelections(message, next, |s| - 1).value.1);
    }
  }

  lemma {:induction false} FirstAndOthers(message: Bytes, offset: nat, s: seq<Selection>, next: nat, end: nat)
    requires s != [] && ReadSelection(message, offset) == Ok((s[0], next))
    requires ReadSelections(message, next, |s| - 1) == Ok((s[1..], end))
    ensures ReadSelections(message, offset, |s|) == Ok((s, end))
  {
    assert s == [s[0]] + s[1..];
  }

  lemma {:induction false} HeaderIsRead(message: Bytes, a: Attest, rest: Bytes)
    requires Fits(a) && message == Print(a, rest)
    ensures ReadBe(message, 0, 4, Magic) == Ok(a.magic) && ReadBe(message, 4, 2, AttestType) == Ok(a.attestType)
    ensures From(message, 6, PrintTail(a, rest))
  {
    ReadNumber(message, 0, a.magic, 4, BigEndian(a.attestType, 2) + PrintTail(a, rest), Magic);
    ReadNumber(message, 4, a.attestType, 2, PrintTail(a, rest), AttestType);
  }

  lemma {:induction false} TailIsRead(message: Bytes, a: Attest, rest: Bytes)
    requires Fits(a) && From(message, 6, PrintTail(a, rest))
    ensures |message| >= 10 && ExtraData(message) == Ok((10 + |a.signer|, |a.extra|))
    ensures Sized(message, 10 + |a.signer|, |a.extra|, Nonce) == Ok(a.extra)
    ensures From(message, 10 + |a.signer| + |a.extra| + 25, PrintAttested(a, rest))
  {
    var quote := PrintAttested(a, rest);
    ReadSized(message, 6, a.signer, PrintSized(a.extra, a.clockAndFirmware + quote), SignerSize);
    ReadSized(message, 8 + |a.signer|, a.extra, a.clockAndFirmware + quote, ExtraSize);
    Skip(message, 10 + |a.signer| + |a.extra|, a.clockAndFirmware, quote);
  }

  lemma {:induction false} NumbersAreRead(a: Attest, rest: Bytes)
    requires Fits(a)
    ensures |Print(a, rest)| >= 10
    ensures ReadBe(Print(a, rest), 0, 4, Magic) == Ok(a.magic) && ReadBe(Print(a, rest), 4, 2, AttestType) == Ok(a.attestType)
    ensures ExtraData(Print(a, rest)) == Ok((10 + |a.signer|, |a.extra|))
    ensures Sized(Print(a, rest), 10 + |a.signer|, |a.extra|, Nonce) == Ok(a.extra)
  {
    HeaderIsRead(Print(a, rest), a, rest);
    TailIsRead(Print(a, rest), a, rest);
  }

  lemma {:induction false} AttestedIsRead(message: Bytes, offset: nat, a: Attest, rest: Bytes)
    requires Fits(a) && From(message, offset, PrintAttested(a, rest))
    ensures Attested(message, offset).Ok?
    ensures var r := Attested(message, offset).value; r.0 == a.selections && r.1 == a.digest && From(message, r.2, rest)
  {
    hide From, FromBigEndian, BigEndian;
    var end := PrintSized(a.digest, rest);
    ReadNumber(message, offset, |a.selections|, 4, PrintSelections(a.selections, end), SelectionCount);
    ReadPrintedSelections(message, offset + 4, a.selections, end);
    ReadSized(message, ReadSelections(message, offset + 4, |a.selections|).value.1, a.digest, rest, DigestSize);
  }

  lemma {:induction false} QuoteSteps(message: Bytes, attestType: nat, at: nat, size: nat)
    requires |message| >= 10 && ReadBe(message, 4, 2, AttestType) == Ok(attestType) && ExtraData(message) == Ok((at, size))
    ensures QuoteOf(message) == AttestedAt(message, attestType, at + size + 25)
  {
    hide AttestedAt, FromBigEndian;
  }

  lemma {:induction false} AttestedFollowsTheHeader(message: Bytes, a: Attest, rest: Bytes)
    requires Fits(a) && message == Print(a, rest)
    ensures From(message, 10 + |a.signer| + |a.extra| + 25, PrintAttested(a, rest))
  {}

  lemma {:induction false} AttestedMeans(message: Bytes, a: Attest, start: nat)
    requires Attested(message, start).Ok?
    requires var r := Attested(message, start).value; r.0 == a.selections && r.1 == a.digest
    ensures AttestedAt(message, a.attestType, start) == if a.Info().IsSha256Quote() then Ok(a.Info()) else Err(NotOneSha256Selection)
  {}

  lemma {:induction false} PrintedAttestedMeans(message: Bytes, a: Attest, rest: Bytes)
    requires Fits(a) && message == Print(a, rest)
    ensures AttestedAt(message, a.attestType, 10 + |a.signer| + |a.extra| + 25)
         == if a.Info().IsSha256Quote() then Ok(a.Info()) else Err(NotOneSha256Selection)
  {
    hide *;
    AttestedFollowsTheHeader(message, a, rest);
    AttestedIsRead(message, 10 + |a.signer| + |a.extra| + 25, a, rest);
    AttestedMeans(message, a, 10 + |a.signer| + |a.extra| + 25);
  }

  /** Reading what was printed gives back what was said; a quote is accepted only over one SHA-256 selection. */
  lemma {:induction false} PrintedIsRead(a: Attest, rest: Bytes)
    requires Fits(a)
    ensures QuoteOf(Print(a, rest)) == if a.Info().IsSha256Quote() then Ok(a.Info()) else Err(NotOneSha256Selection)
  {
    hide *;
    NumbersAreRead(a, rest);
    QuoteSteps(Print(a, rest), a.attestType, 10 + |a.signer|, |a.extra|);
    PrintedAttestedMeans(Print(a, rest), a, rest);
  }

  /** Accepted as a quote: type 0x8018 over one selection, of the bank 0x000B, whatever the magic. */
  lemma {:induction false} AcceptedQuotes(a: Attest, rest: Bytes)
    requires Fits(a)
    ensures QuoteOf(Print(a, rest)).Ok? <==> a.attestType == 0x8018 && |a.selections| == 1 && a.selections[0].alg == 0x000B
  {
    hide Print, QuoteOf;
    PrintedIsRead(a, rest);
    assert |AlgsOf(a.selections)| == 1 ==> AlgsOf(a.selections) == [a.selections[0].alg];
  }

  /** The nonce read is the extra data printed, whatever else the message says, if it carries the magic. */
  lemma {:induction false} NonceIsExtraData(a: Attest, rest: Bytes)
    requires Fits(a)
    ensures NonceOf(Print(a, rest)) == if a.magic == ATTEST_MAGIC then Ok(a.extra) else Err(BadMagic(a.magic))
  {
    NumbersAreRead(a, rest);
  }

  // ------------------------------------------------------ read, then printed

  lemma {:induction false} Unskip(message: Bytes, offset: nat, end: nat, tail: Bytes)
    requires offset <= end && From(message, end, tail)
    ensures From(message, offset, message[offset..end] + tail)
  {}

  lemma {:induction false} Unread(message: Bytes, offset: nat, width: nat, part: Part, tail: Bytes) returns (n: nat)
    requires ReadBe(message, offset, width, part).Ok? && From(message, offset + width, tail)
    ensures ReadBe(message, offset, width, part) == Ok(n) && n < Power256(width)
    ensures From(message, offset, BigEndian(n, width) + tail)
  {
    FromBigEndianRoundTrip(message[offset..offset + width]);
    Unskip(message, offset, offset + width, tail);
    n := ReadBe(message, offset, width, part).value;
  }

  lemma {:induction false} UnreadSized(message: Bytes, offset: nat, size: nat, part: Part, tail: Bytes)
    requires ReadBe(message, offset, 2, part) == Ok(size) && From(message, offset + 2 + size, tail)
    ensures size < Power256(2)
    ensures From(message, offset, PrintSized(message[offset + 2..offset + 2 + size], tail))
  {
    var data := message[offset + 2..offset + 2 + size];
    Unskip(message, offset + 2, offset + 2 + size, tail);
    var n := Unread(message, offset, 2, part, data + tail);
  }

  lemma {:induction false} UnreadSelection(message: Bytes, offset: nat, s: Selection, end: nat, tail: Bytes)
    requires ReadSelection(message, offset) == Ok((s, end)) && From(message, end, tail)
    ensures SelectionFits(s) && From(message, offset, PrintSelection(s, tail))
  {
    SmallPowers();
    OneByte(|s.bitmap|);
    Unskip(message, offset + 3, end, tail);
    Unskip(message, offset + 2, offset + 3, s.bitmap + tail);
    assert message[offset + 2..offset + 3] == [message[offset + 2]];
    var alg := Unread(message, offset, 2, HashAlg, BigEndian(|s.bitmap|, 1) + (s.bitmap + tail));
  }

  lemma {:induction false} UnreadSelections(message: Bytes, offset: nat, s: seq<Selection>, end: nat, tail: Bytes)
    requires ReadSelections(message, offset, |s|) == Ok((s, end)) && From(message, end, tail)
    ensures (forall i :: 0 <= i < |s| ==> SelectionFits(s[i])) && From(message, offset, PrintSelections(s, tail))
    decreases |s|
  {
    if s != [] {
      var one := ReadSelection(message, offset).value;
      var others := ReadSelections(message, one.1, |s| - 1).value;
      assert s[0] == one.0 && s[1..] == others.0;
      UnreadSelections(message, one.1, s[1..], end, tail);
      UnreadSelection(message, offset, one.0, one.1, PrintSelections(s[1..], tail));
    }
  }

  lemma {:induction false} AttestedSteps(message: Bytes, offset: nat, selections: seq<Selection>, digest: Bytes,
                                         end: nat) returns (at: nat)
    requires Attested(message, offset) == Ok((selections, digest, end))
    ensures ReadBe(message, offset, 4, SelectionCount) == Ok(|selections|)
    ensures ReadSelections(message, offset + 4, |selections|) == Ok((selections, at))
    ensures ReadBe(message, at, 2, DigestSize) == Ok(|digest|)
    ensures end == at + 2 + |digest| && digest == message[at + 2..end]
  {
    at := end - |digest| - 2;
  }

  lemma {:induction false} UnreadAttested(message: Bytes, offset: nat, a: Attest, end: nat, tail: Bytes)
    requires Attested(message, offset) == Ok((a.selections, a.digest, end)) && From(message, end, tail)
    ensures |a.selections| < Power256(4) && |a.digest| < Power256(2)
    ensures forall i :: 0 <= i < |a.selections| ==> SelectionFits(a.selections[i])
    ensures From(message, offset, PrintAttested(a, tail))
  {
    hide Attested, FromBigEndian, BigEndian;
    var at := AttestedSteps(message, offset, a.selections, a.digest, end);
    UnreadSized(message, at, |a.digest|, DigestSize, tail);
    UnreadSelections(message, offset + 4, a.selections, at, PrintSized(a.digest, tail));
    var count := Unread(message, offset, 4, SelectionCount, PrintSelections(a.selections, PrintSized(a.digest, tail)));
  }

  lemma {:induction false} UnreadTail(message: Bytes, a: Attest, tail: Bytes)
    requires ExtraData(message) == Ok((10 + |a.signer|, |a.extra|)) && |a.clockAndFirmware| == 25
    requires var at := 10 + |a.signer|; var start := at + |a.extra|;
      && From(message, start + 25, PrintAttested(a, tail))
      && a.signer == message[8..at - 2] && a.extra == message[at..start] && a.clockAndFirmware == message[start..start + 25]
    ensures |a.signer| < Power256(2) && |a.extra| < Power256(2)
    ensures From(message, 6, PrintTail(a, tail))
  {
    hide FromBigEndian, BigEndian, PrintAttested, From;
    var at := 10 + |a.signer|;
    Unskip(message, at + |a.extra|, at + |a.extra| + 25, PrintAttested(a, tail));
    var quote := a.clockAndFirmware + PrintAttested(a, tail);
    UnreadSized(message, at - 2, |a.extra|, ExtraSize, quote);
    UnreadSized(message, 6, |a.signer|, SignerSize, PrintSized(a.extra, quote));
  }

  lemma {:induction false} UnreadHeader(message: Bytes, tail: Bytes) returns (magic: nat, attestType: nat)
    requires From(message, 6, tail)
    ensures ReadBe(message, 4, 2, AttestType) == Ok(attestType) && attestType < Power256(2) && magic < Power256(4)
    ensures message == BigEndian(magic, 4) + (BigEndian(attestType, 2) + tail)
  {
    attestType := Unread(message, 4, 2, AttestType, tail);
    magic := Unread(message, 0, 4, Magic, BigEndian(attestType, 2) + tail);
  }

  lemma {:induction false} AttestedFits(message: Bytes, start: nat)
    requires Attested(message, start).Ok?
    ensures start + 4 <= Attested(message, start).value.2 <= |message|
  {}

  /** Where the parser found the parts of a message it accepts. */
  lemma {:induction false} AcceptedParts(message: Bytes) returns (a: Attest, start: nat, end: nat)
    requires QuoteOf(message).Ok?
    ensures ExtraData(message) == Ok((10 + |a.signer|, |a.extra|)) && start == 10 + |a.signer| + |a.extra| + 25 <= end <= |message|
    ensures a.signer == message[8..8 + |a.signer|] && a.extra == message[start - 25 - |a.extra|..start - 25]
    ensures a.clockAndFirmware == message[start - 25..start] && a.magic == 0 && a.attestType == 0
    ensures Attested(message, start) == Ok((a.selections, a.digest, end))
  {
    hide ReadSelections, SelectedBy, AlgsOf, FromBigEndian;
    var (at, size) := ExtraData(message).value;
    start := at + size + 25;
    AttestedFits(message, start);
    var (selections, digest, stop) := Attested(message, start).value;
    end := stop;
    a := Attest(0, 0, message[8..at - 2], message[at..at + size], message[at + size..start], selections, digest);
  }

  lemma {:induction false} PartsArePrinted(message: Bytes, a: Attest, start: nat, end: nat, rest: Bytes)
    requires Attested(message, start) == Ok((a.selections, a.digest, end)) && From(message, end, rest)
    requires ExtraData(message) == Ok((10 + |a.signer|, |a.extra|)) && start == 10 + |a.signer| + |a.extra| + 25 <= |message|
    requires a.signer == message[8..8 + |a.signer|] && a.extra == message[start - 25 - |a.extra|..start - 25]
    requires a.clockAndFirmware == message[start - 25..start] && a.magic == 0 && a.attestType == 0
    ensures Fits(a) && From(message, 6, PrintTail(a, rest))
  {
    hide AlgsOf, SelectedBy, PrintTail, PrintAttested, From, FromBigEndian;
    UnreadAttested(message, start, a, end, rest);
    UnreadTail(message, a, rest);
  }

  /** Everything the parser accepts is the print of one quote, up to the bytes it ignores behind it. */
  lemma {:induction false} AcceptedIsPrinted(message: Bytes) returns (a: Attest, rest: Bytes)
    requires QuoteOf(message).Ok?
    ensures Fits(a) && a.Info().IsSha256Quote()
    ensures message == Print(a, rest)
    ensures QuoteOf(message) == Ok(a.Info())
  {
    hide ReadSelections, Attested, FromBigEndian, BigEndian, PrintAttested;
    var parts, start, end := AcceptedParts(message);
    rest := message[end..];
    PartsArePrinted(message, parts, start, end, rest);
    var magic, attestType := UnreadHeader(message, PrintTail(parts, rest));
    a := parts.(magic := magic, attestType := attestType);
    SameTail(a, parts, rest);
    QuoteSteps(message, attestType, 10 + |a.signer|, |a.extra|);
    AttestedMeans(message, a, start);
  }

  lemma {:induction false} SameTail(a: Attest, b: Attest, rest: Bytes)
    requires a == b.(magic := a.magic, attestType := a.attestType)
    ensures PrintTail(a, rest) == PrintTail(b, rest)
  {}

  /** A message as far as its extra data; `rest` follows. */
  function PrintUpToNonce(attestType: nat, signer: Bytes, nonce: Bytes, rest: Bytes): Bytes {
    BigEndian(0xFF544347, 4) + (BigEndian(attestType, 2) + PrintSized(signer, PrintSized(nonce, rest)))
  }

  lemma {:induction false} PrintedNonceIsRead(attestType: nat, signer: Bytes, nonce: Bytes, rest: Bytes)
    requires attestType < Power256(2) && |signer| < Power256(2) && |nonce| < Power256(2)
    ensures NonceOf(PrintUpToNonce(attestType, signer, nonce, rest)) == Ok(nonce)
  {
    hide FromBigEndian, From, Power256;
    SmallPowers();
    var message := PrintUpToNonce(attestType, signer, nonce, rest);
    var tail := PrintSized(signer, PrintSized(nonce, rest));
    WholeFrom(message);
    ReadNumber(message, 0, 0xFF544347, 4, BigEndian(attestType, 2) + tail, Magic);
    ReadNumber(message, 4, attestType, 2, tail, AttestType);
    ReadSized(message, 6, signer, PrintSized(nonce, rest), SignerSize);
    ReadSized(message, 8 + |signer|, nonce, rest, ExtraSize);
  }

  lemma {:induction false} WholeFrom(message: Bytes)
    ensures From(message, 0, message)
  {}

  /** A nonce is read from just those messages that carry the magic and reach to its end: it is their extra data. */
  lemma {:induction false} NonceMeans(message: Bytes, nonce: Bytes)
    ensures NonceOf(message) == Ok(nonce) <==> exists attestType: nat, signer, rest ::
      && attestType < Power256(2) && |signer| < Power256(2) && |nonce| < Power256(2)
      && message == PrintUpToNonce(attestType, signer, nonce, rest)
  {
    hide PrintUpToNonce, Power256, FromBigEndian, BigEndian;
    if NonceOf(message) == Ok(nonce) {
      var attestType, signer, rest := NonceParts(message);
    }
    forall attestType: nat, signer, rest
      | attestType < Power256(2) && |signer| < Power256(2) && |nonce| < Power256(2)
        && message == PrintUpToNonce(attestType, signer, nonce, rest)
      ensures NonceOf(message) == Ok(nonce)
    {
      PrintedNonceIsRead(attestType, signer, nonce, rest);
    }
  }

  lemma {:induction false} NonceParts(message: Bytes) returns (attestType: nat, signer: Bytes, rest: Bytes)
    requires NonceOf(message).Ok?
    ensures var nonce := NonceOf(message).value;
      && attestType < Power256(2) && |signer| < Power256(2) && |nonce| < Power256(2)
      && message == PrintUpToNonce(attestType, signer, nonce, rest)
  {
    hide FromBigEndian, BigEndian, Power256, From, PrintSized;
    var (at, size) := ExtraData(message).value;
    rest, signer := message[at + size..], message[8..at - 2];
    RestFrom(message, at + size);
    UnreadSized(message, at - 2, size, ExtraSize, rest);
    var tail := PrintSized(message[at..at + size], rest);
    UnreadSized(message, 6, at - 10, SignerSize, tail);
    var header := PrintSized(signer, tail);
    attestType := Unread(message, 4, 2, AttestType, header);
    var magic := Unread(message, 0, 4, Magic, BigEndian(attestType, 2) + header);
    FromIsWhole(message, BigEndian(magic, 4) + (BigEndian(attestType, 2) + header));
  }

  lemma {:induction false} RestFrom(message: Bytes, offset: nat)
    requires offset <= |message|
    ensures From(message, offset, message[offset..])
  {}

  lemma {:induction false} FromIsWhole(message: Bytes, tail: Bytes)
    requires From(message, 0, tail)
    ensures message == tail
  {}

  /** A quote names each PCR by one bit: the selected PCRs are the set bits of the only bitmap, in order. */
  lemma {:induction false} SelectedAreOneBitmap(a: Attest, k: nat)
    requires Fits(a) && a.Info().IsSha256Quote()
    ensures |a.selections| == 1
    ensures var bitmap := a.selections[0].bitmap;
      && a.Info().selected == SetBits(bitmap, |bitmap|)
      && (k in a.Info().selected <==> k < 8 * |bitmap| && IsSet(bitmap, k))
  {
    var s := a.selections[0];
    assert |AlgsOf(a.selections)| == 1;
    assert SelectedBy(a.selections) == SelectedBy(a.selections[..0]) + SelectedIn(s);
    SelectedAreTheSetBits(s.bitmap, |s.bitmap|, k);
  }

  // -------------------------------------------------------- hostile counts

  /**
   However large the selection count, at most a third of the message's length
   is looped over: a larger count gives the very answer that count gives.
   */
  lemma {:induction false} HugeCountsStopEarly(message: Bytes, offset: nat, count: nat, more: nat)
    requires 3 * count > |message| - offset && more >= count > 0
    ensures ReadSelections(message, offset, more).Err?
    ensures ReadSelections(message, offset, more) == ReadSelections(message, offset, count)
    decreases count
  {
    var one := ReadSelection(message, offset);
    if one.Ok? {
      HugeCountsStopEarly(message, one.value.1, count - 1, more - 1);
    }
  }
}
