/**
 The TPM2 quote message (TPMS_ATTEST, TPM 2.0 Library Part 2, section
 10.12.8) and the checks of PCR values against it. The message signs only a
 digest over the PCRs its selection names; the PCR values travel beside it and
 the attester can put anything there.

 SHA-256 is a parameter: any function from bytes to 32 bytes.
 */
module TpmQuote {
  import opened Prelude

  const ATTEST_MAGIC: nat := 0xFF544347
  const ST_ATTEST_QUOTE: nat := 0x8018
  const ALG_SHA256: nat := 0x000B

  type Digest = d: Bytes | |d| == 32 witness Zeros(32)
  type Sha256 = Bytes -> Digest

  datatype Part =
    | Magic | AttestType | SignerSize | ExtraSize | Nonce | SelectionCount | HashAlg | SelectionSize | Bitmap
    | DigestSize | PcrDigest

  datatype Error =
    | TooShort
    | BadMagic(magic: nat)
    | Truncated(at: Part)
    | NotOneSha256Selection
    | NoPcrs
    | PcrSize(index: nat, size: nat)
    | NoSuchPcr(index: nat, available: nat)
    | DigestMismatch
    | TooFewPcrs(available: nat)
    | InitDataSize(size: nat)
    | PinOutOfRange(index: nat)

  /** What the verifier reads of a quote. */
  datatype QuoteInfo = QuoteInfo(attestType: nat, hashAlgs: seq<nat>, selected: seq<nat>, digest: Bytes) {
    predicate IsSha256Quote() {
      attestType == ST_ATTEST_QUOTE && hashAlgs == [ALG_SHA256]
    }
  }

  // ------------------------------------------------------------- reading

  function ReadBe(message: Bytes, offset: nat, width: nat, part: Part): (r: Result<nat, Error>)
    ensures r.Ok? <==> offset + width <= |message|
    ensures r.Err? ==> r.error == Truncated(part)
  {
    if offset + width <= |message| then Ok(FromBigEndian(message[offset..offset + width])) else Err(Truncated(part))
  }

  function Power2(k: nat): (p: nat)
    ensures p > 0
  {
    if k == 0 then 1 else 2 * Power2(k - 1)
  }

  predicate HasBit(byte: Byte, k: nat) {
    byte as int / Power2(k) % 2 == 1
  }

  /** The sum of the weights of the set bits below `n`. */
  function Weights(byte: Byte, n: nat): nat {
    if n == 0 then 0 else Weights(byte, n - 1) + if HasBit(byte, n - 1) then Power2(n - 1) else 0
  }

  lemma {:induction false} LowBits(byte: Byte, n: nat)
    ensures Weights(byte, n) == byte as int % Power2(n)
  {
    if n > 0 {
      LowBits(byte, n - 1);
      OneBitMore(byte as int, Power2(n - 1));
    }
  }

  lemma {:induction false} OneBitMore(b: nat, p: nat)
    requires p > 0
    ensures b % (2 * p) == b % p + if b / p % 2 == 1 then p else 0
  {
    var (half, bit, r) := (b / p / 2, b / p % 2, b % p);
    calc {
      b;
      p * (b / p) + r;
      p * (2 * half + bit) + r;
      2 * p * half + (p * bit + r);
    }
    if bit == 1 {
      Remainder(b, 2 * p, half, p + r);
    } else {
      Remainder(b, 2 * p, half, r);
    }
  }

  lemma {:induction false} Remainder(b: nat, d: nat, q: nat, r: nat)
    requires r < d && b == d * q + r
    ensures b % d == r
  {
    var q' := b / d;
    assert b == d * q' + b % d;
    MultiplesApart(d, q, q');
    MultiplesApart(d, q', q);
  }

  lemma {:induction false} MultiplesApart(d: nat, q: nat, q': nat)
    ensures q < q' ==> d * q + d <= d * q'
    decreases q'
  {
    if q + 1 < q' {
      MultiplesApart(d, q, q' - 1);
    }
    assert d * q' == d * (q' - 1) + d;
  }

  lemma {:induction false} EightDoublings()
    ensures Power2(8) == 256
  {
    assert Power2(4) == 16;
  }

  /** The bits of a byte are those of its binary form, bit `k` of weight two to the `k`: together they make up the byte. */
  lemma {:induction false} BitsMakeUpTheByte(byte: Byte)
    ensures Weights(byte, 8) == byte as int
  {
    hide *;
    LowBits(byte, 8);
    EightDoublings();
  }

  /** The numbers of the set bits of one byte below `n`, the lowest numbered `base`. */
  function ByteBits(byte: Byte, base: nat, n: nat): (s: seq<nat>)
    ensures forall i :: 0 <= i < |s| ==> base <= s[i] < base + n
    ensures forall i, j :: 0 <= i < j < |s| ==> s[i] < s[j]
    ensures forall k :: k in s <==> base <= k < base + n && HasBit(byte, k - base)
  {
    if n == 0 then [] else ByteBits(byte, base, n - 1) + if HasBit(byte, n - 1) then [base + n - 1] else []
  }

  /** The set bits of the first `n` bytes. */
  function SetBits(bitmap: Bytes, n: nat): (s: seq<nat>)
    requires n <= |bitmap|
    ensures forall i :: 0 <= i < |s| ==> s[i] < 8 * n
    ensures forall i, j :: 0 <= i < j < |s| ==> s[i] < s[j]
  {
    if n == 0 then [] else SetBits(bitmap, n - 1) + ByteBits(bitmap[n - 1], 8 * (n - 1), 8)
  }

  /** Bit `k` of a bitmap, counting from the low bit of the first byte. */
  predicate IsSet(bitmap: Bytes, k: nat)
    requires k < 8 * |bitmap|
  {
    HasBit(bitmap[k / 8], k % 8)
  }

  lemma {:induction false} LastByte(bitmap: Bytes, n: nat, k: nat)
    requires 0 < n <= |bitmap| && 8 * (n - 1) <= k < 8 * n
    ensures IsSet(bitmap, k) <==> HasBit(bitmap[n - 1], k - 8 * (n - 1))
  {
    assert k / 8 == n - 1 && k % 8 == k - 8 * (n - 1);
  }

  /** The PCRs a selection names are exactly the set bits. */
  lemma {:induction false} SelectedAreTheSetBits(bitmap: Bytes, n: nat, k: nat)
    requires n <= |bitmap|
    ensures k in SetBits(bitmap, n) <==> k < 8 * n && IsSet(bitmap, k)
  {
    if n > 0 {
      if 8 * (n - 1) <= k < 8 * n {
        LastByte(bitmap, n, k);
      } else {
        SelectedAreTheSetBits(bitmap, n - 1, k);
      }
    }
  }

  datatype Selection = Selection(alg: nat, bitmap: Bytes)

  /** `count` selections from `offset` on, and where they end. */
  function ReadSelections(message: Bytes, offset: nat, count: nat): (r: Result<(seq<Selection>, nat), Error>)
    ensures r.Ok? ==> |r.value.0| == count && offset + 3 * count <= r.value.1 && (count > 0 ==> r.value.1 <= |message|)
    decreases count
  {
    if count == 0 then
      Ok(([], offset))
    else
      var one :- ReadSelection(message, offset);
      var others :- ReadSelections(message, one.1, count - 1);
      Ok(([one.0] + others.0, others.1))
  }

  function ReadSelection(message: Bytes, offset: nat): (r: Result<(Selection, nat), Error>)
    ensures r.Ok? ==> offset + 3 <= r.value.1 <= |message|
  {
    var alg :- ReadBe(message, offset, 2, HashAlg);
    if offset + 2 >= |message| then
      Err(Truncated(SelectionSize))
    else
      var size := message[offset + 2] as nat;
      var start := offset + 3;
      if start + size > |message| then Err(Truncated(Bitmap))
      else Ok((Selection(alg, message[start..start + size]), start + size))
  }

  function SelectedBy(selections: seq<Selection>): seq<nat> {
    if selections == [] then []
    else SelectedBy(selections[..|selections| - 1]) + SelectedIn(selections[|selections| - 1])
  }

  function SelectedIn(s: Selection): seq<nat> {
    SetBits(s.bitmap, |s.bitmap|)
  }

  function AlgsOf(selections: seq<Selection>): (algs: seq<nat>)
    ensures |algs| == |selections| && forall i :: 0 <= i < |algs| ==> algs[i] == selections[i].alg
  {
    seq(|selections|, i requires 0 <= i < |selections| => selections[i].alg)
  }

  /** Where the extra data begins, and its size. */
  function ExtraData(message: Bytes): (r: Result<(nat, nat), Error>)
    ensures r.Ok? ==> r.value.0 <= |message|
  {
    var signer :- ReadBe(message, 6, 2, SignerSize);
    var extra :- ReadBe(message, 8 + signer, 2, ExtraSize);
    Ok((10 + signer, extra))
  }

  function Sized(message: Bytes, offset: nat, size: nat, part: Part): Result<Bytes, Error> {
    if offset + size > |message| then Err(Truncated(part)) else Ok(message[offset..offset + size])
  }

  /** What `parse_quote_info` answers: the magic is not looked at, bytes after the digest are ignored. */
  function QuoteOf(message: Bytes): Result<QuoteInfo, Error> {
    if |message| < 10 then
      Err(TooShort)
    else
      var attestType :- ReadBe(message, 4, 2, AttestType);
      var extra :- ExtraData(message);
      // Past the extra data: clock info and firmware version.
      AttestedAt(message, attestType, extra.0 + extra.1 + 17 + 8)
  }

  /** The PCR selections at `offset`, the digest behind them, and where it ends. */
  function Attested(message: Bytes, offset: nat): Result<(seq<Selection>, Bytes, nat), Error> {
    var count :- ReadBe(message, offset, 4, SelectionCount);
    var selections :- ReadSelections(message, offset + 4, count);
    var size :- ReadBe(message, selections.1, 2, DigestSize);
    var digest :- Sized(message, selections.1 + 2, size, PcrDigest);
    Ok((selections.0, digest, selections.1 + 2 + size))
  }

  function AttestedAt(message: Bytes, attestType: nat, offset: nat): Result<QuoteInfo, Error> {
    var attested :- Attested(message, offset);
    var quote := QuoteInfo(attestType, AlgsOf(attested.0), SelectedBy(attested.0), attested.1);
    if quote.IsSha256Quote() then Ok(quote) else Err(NotOneSha256Selection)
  }

  function NonceOf(message: Bytes): Result<Bytes, Error> {
    if |message| < 10 then
      Err(TooShort)
    else
      var magic :- ReadBe(message, 0, 4, Magic);
      if magic != ATTEST_MAGIC then
        Err(BadMagic(magic))
      else
        var extra :- ExtraData(message);
        Sized(message, extra.0, extra.1, Nonce)
  }

  // ------------------------------------------------ where a message ends too early

  /** Why a message has no nonce: its length, its magic, or the sized field it ends in. */
  lemma {:induction false} WhyNoNonce(message: Bytes, e: Error)
    requires NonceOf(message) == Err(e)
    ensures |message| < 10 ==> e == TooShort
    ensures |message| >= 10 ==>
      var (magic, at) := (FromBigEndian(message[0..4]), 10 + FromBigEndian(message[6..8]));
      e == if magic != 0xFF544347 then BadMagic(magic) else Truncated(if |message| < at then ExtraSize else Nonce)
  {
    hide FromBigEndian;
  }

  /** Why a message is no quote, as far as its selections: the part it ends in. */
  lemma {:induction false} WhyNoQuote(message: Bytes, e: Error)
    requires QuoteOf(message) == Err(e)
    ensures |message| < 10 ==> e == TooShort
    ensures |message| >= 10 ==>
      var at := 10 + FromBigEndian(message[6..8]);
      if |message| < at then e == Truncated(ExtraSize)
      else
        var start := at + FromBigEndian(message[at - 2..at]) + 25;
        if |message| < start + 4 then e == Truncated(SelectionCount)
        else WhyNotAttested(message, start + 4, FromBigEndian(message[start..start + 4]), e)
  {
    hide FromBigEndian, ReadSelections, AlgsOf, SelectedBy;
  }

  /** Of the selections and the digest behind them. */
  predicate WhyNotAttested(message: Bytes, offset: nat, count: nat, e: Error) {
    match ReadSelections(message, offset, count)
    case Err(e') => e == e'
    case Ok((_, end)) =>
      if |message| < end + 2 then e == Truncated(DigestSize)
      else if |message| < end + 2 + FromBigEndian(message[end..end + 2]) then e == Truncated(PcrDigest)
      else e == NotOneSha256Selection
  }

  /** Why the selections are not read: the part of the first bad one that is not there. */
  lemma {:induction false} WhyNoSelections(message: Bytes, offset: nat, count: nat, e: Error) returns (k: nat, at: nat)
    requires ReadSelections(message, offset, count) == Err(e)
    ensures k < count && ReadSelections(message, offset, k).Ok? && ReadSelections(message, offset, k).value.1 == at
    ensures e == Truncated(if |message| < at + 2 then HashAlg else if |message| == at + 2 then SelectionSize else Bitmap)
    decreases count
  {
    hide FromBigEndian;
    var one := ReadSelection(message, offset);
    if one.Err? {
      k, at := 0, offset;
    } else {
      k, at := WhyNoSelections(message, one.value.1, count - 1, e);
      k := k + 1;
    }
  }

  // ------------------------------------------------- the parser, step by step

  method ParseQuoteInfo(message: Bytes) returns (r: Result<QuoteInfo, Error>)
    ensures r == QuoteOf(message)
  {
    hide FromBigEndian, AttestedAt;
    if |message| < 10 {
      return Err(TooShort);
    }
    // These two are among the first ten bytes.
    var attestType, signerSize := ReadBe(message, 4, 2, AttestType).value, ReadBe(message, 6, 2, SignerSize).value;
    var offset := 6;
    offset := offset + 2 + signerSize;
    var extraSize :- ReadBe(message, offset, 2, ExtraSize);
    assert ExtraData(message) == Ok((10 + signerSize, extraSize));
    offset := offset + 2 + extraSize;
    offset := offset + 17;
    offset := offset + 8;
    r := ParseAttested(message, attestType, offset);
  }

  method ParseAttested(message: Bytes, attestType: nat, start: nat) returns (r: Result<QuoteInfo, Error>)
    ensures r == AttestedAt(message, attestType, start)
  {
    var count :- ReadBe(message, start, 4, SelectionCount);
    var read, offset := ParseSelections(message, start + 4, count);
    var selections :- read;
    var digestSize :- ReadBe(message, offset, 2, DigestSize);
    offset := offset + 2;
    if offset + digestSize > |message| {
      return Err(Truncated(PcrDigest));
    }
    var quote := QuoteInfo(attestType, selections.0, selections.1, message[offset..offset + digestSize]);
    if !quote.IsSha256Quote() {
      return Err(NotOneSha256Selection);
    }
    r := Ok(quote);
  }

  function Prepended(done: seq<Selection>, r: Result<(seq<Selection>, nat), Error>): Result<(seq<Selection>, nat), Error> {
    match r
    case Err(e) => Err(e)
    case Ok((selections, end)) => Ok((done + selections, end))
  }

  method ParseSelections(message: Bytes, start: nat, count: nat)
    returns (r: Result<(seq<nat>, seq<nat>), Error>, offset: nat)
    ensures match ReadSelections(message, start, count)
            case Err(e) => r == Err(e)
            case Ok((selections, end)) => r == Ok((AlgsOf(selections), SelectedBy(selections))) && offset == end
  {
    hide ReadBe, FromBigEndian, SetBits;
    offset := start;
    var hashAlgs: seq<nat>, selected: seq<nat> := [], [];
    ghost var done: seq<Selection> := [];
    NonePrepended(ReadSelections(message, start, count));
    for i := 0 to count
      invariant |done| == i && hashAlgs == AlgsOf(done) && selected == SelectedBy(done)
      invariant ReadSelections(message, start, count) == Prepended(done, ReadSelections(message, offset, count - i))
    {
      ghost var one := ReadSelection(message, offset);
      if one.Ok? {
        OneSelectionMore(message, done, offset, count - i);
      }
      var alg, named, next := ParseSelection(message, offset);
      if named.Err? {
        return Err(named.error), offset;
      }
      hashAlgs, selected, offset := hashAlgs + [alg], selected + named.value, next;
      AppendSelection(done, one.value.0);
      done := done + [one.value.0];
    }
    assert done + [] == done;
    r := Ok((hashAlgs, selected));
  }

  method ParseSelection(message: Bytes, start: nat) returns (alg: nat, named: Result<seq<nat>, Error>, offset: nat)
    ensures match ReadSelection(message, start)
            case Err(e) => named == Err(e)
            case Ok((s, end)) => alg == s.alg && named == Ok(SelectedIn(s)) && offset == end
  {
    alg, offset := 0, start;
    var read := ReadBe(message, offset, 2, HashAlg);
    if read.Err? {
      return alg, Err(read.error), offset;
    }
    alg := read.value;
    offset := offset + 2;
    if offset >= |message| {
      return alg, Err(Truncated(SelectionSize)), offset;
    }
    var size := message[offset] as nat;
    offset := offset + 1;
    if offset + size > |message| {
      return alg, Err(Truncated(Bitmap)), offset;
    }
    var bits := ParseBitmap(message, offset, size);
    named := Ok(bits);
    offset := offset + size;
  }

  lemma {:induction false} NonePrepended(r: Result<(seq<Selection>, nat), Error>)
    ensures Prepended([], r) == r
  {
    if r.Ok? {
      assert [] + r.value.0 == r.value.0;
    }
  }

  lemma {:induction false} OneSelectionMore(message: Bytes, done: seq<Selection>, offset: nat, count: nat)
    requires count > 0 && ReadSelection(message, offset).Ok?
    ensures var one := ReadSelection(message, offset).value;
      Prepended(done, ReadSelections(message, offset, count)) == Prepended(done + [one.0], ReadSelections(message, one.1, count - 1))
  {
    var one := ReadSelection(message, offset).value;
    var others := ReadSelections(message, one.1, count - 1);
    if others.Ok? {
      assert done + ([one.0] + others.value.0) == done + [one.0] + others.value.0;
    }
  }

  lemma {:induction false} AppendSelection(done: seq<Selection>, one: Selection)
    ensures AlgsOf(done + [one]) == AlgsOf(done) + [one.alg]
    ensures SelectedBy(done + [one]) == SelectedBy(done) + SelectedIn(one)
  {}

  method ParseBitmap(message: Bytes, offset: nat, size: nat) returns (selected: seq<nat>)
    requires offset + size <= |message|
    ensures selected == SelectedIn(Selection(0, message[offset..offset + size]))
  {
    ghost var bitmap := message[offset..offset + size];
    selected := [];
    for byteIndex := 0 to size
      invariant selected == SetBits(bitmap, byteIndex)
    {
      var named := ParseByte(message[offset + byteIndex], byteIndex);
      selected := selected + named;
    }
  }

  method ParseByte(byte: Byte, byteIndex: nat) returns (selected: seq<nat>)
    ensures selected == ByteBits(byte, 8 * byteIndex, 8)
  {
    hide HasBit;
    selected := [];
    for bit := 0 to 8
      invariant selected == ByteBits(byte, 8 * byteIndex, bit)
    {
      if HasBit(byte, bit) {
        selected := selected + [byteIndex * 8 + bit];
      }
    }
  }

  method ExtractNonce(message: Bytes) returns (r: Result<Bytes, Error>)
    ensures r == NonceOf(message)
  {
    if |message| < 10 {
      return Err(TooShort);
    }
    var magic, signerSize := ReadBe(message, 0, 4, Magic).value, ReadBe(message, 6, 2, SignerSize).value;
    if magic != ATTEST_MAGIC {
      return Err(BadMagic(magic));
    }
    var offset := 6;
    offset := offset + 2 + signerSize;
    var nonceSize :- ReadBe(message, offset, 2, ExtraSize);
    offset := offset + 2;
    if |message| < offset + nonceSize {
      return Err(Truncated(Nonce));
    }
    r := Ok(message[offset..offset + nonceSize]);
  }
}
