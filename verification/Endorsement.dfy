/**
 Google's launch endorsements: reading the golden measurement out of the
 message, and the data flow of the signature check. Certificates and RSA are
 parameters: the results hold for whatever they accept.
 */
module Endorsement {
  import opened Prelude
  import opened Protobuf

  const PROVENANCE_REQUIRED_AFTER := 1_722_556_800

  datatype ReadError =
    | Malformed(error: Protobuf.Error) | ExpectedVarint | ExpectedBytes | OutOfRange

  datatype SevSnpGolden = SevSnpGolden(svn: U32, measurements: map<U32, Bytes>, policy: U64, svsmMeasurement: Bytes)
  datatype TdxMeasurement = TdxMeasurement(ramGib: U32, earlyAccept: bool, mrtd: Bytes)
  datatype TdxGolden = TdxGolden(svn: U32, measurements: seq<TdxMeasurement>)

  datatype Golden = Golden(
    timestamp: int, clSpec: U64, commit: Bytes, cert: Bytes, digest: Bytes,
    sevSnp: Option<SevSnpGolden>, tdx: Option<TdxGolden>)

  const NO_GOLDEN := Golden(0, 0, [], [], [], None, None)
  const NO_SEV_SNP := SevSnpGolden(0, map[], 0, [])
  const NO_TDX := TdxGolden(0, [])
  const NO_TDX_MEASUREMENT := TdxMeasurement(0, false, [])

  // ------------------------------------------------------------ field accessors

  function AsVarint(f: Field): Result<U64, ReadError> {
    if f.Varint? then Ok(f.v) else Err(ExpectedVarint)
  }

  /** A varint that must not exceed `max`. */
  function AsInt(f: Field, max: nat): (r: Result<nat, ReadError>)
    ensures r.Ok? ==> r.value <= max
  {
    if !f.Varint? then Err(ExpectedVarint)
    else if f.v > max then Err(OutOfRange)
    else Ok(f.v)
  }

  function AsU32(f: Field): Result<U32, ReadError> {
    if !f.Varint? then Err(ExpectedVarint)
    else if f.v >= U32_LIMIT then Err(OutOfRange)
    else Ok(f.v)
  }

  function AsBytes(f: Field): Result<Bytes, ReadError> {
    if f.Delimited? then Ok(f.data) else Err(ExpectedBytes)
  }

  // ---------------------------------------------------- one field after another

  /** Takes the fields in order; the first step that fails is the answer. */
  function FoldFields<S>(step: (S, Numbered) -> Result<S, ReadError>, start: S, fs: seq<Numbered>): Result<S, ReadError> {
    if fs == [] then Ok(start)
    else match step(start, fs[0])
      case Err(e) => Err(e)
      case Ok(next) => FoldFields(step, next, fs[1..])
  }

  method ReadEach<S>(step: (S, Numbered) -> Result<S, ReadError>, start: S, fs: seq<Numbered>)
    returns (r: Result<S, ReadError>)
    ensures r == FoldFields(step, start, fs)
  {
    var value := start;
    assert fs[0..] == fs;
    for i := 0 to |fs|
      invariant FoldFields(step, start, fs) == FoldFields(step, value, fs[i..])
    {
      var next := step(value, fs[i]);
      assert fs[i..][1..] == fs[i + 1..];
      if next.Err? {
        return next;
      }
      value := next.value;
    }
    r := Ok(value);
  }

  lemma {:induction false} FoldOfConcatenation<S>(step: (S, Numbered) -> Result<S, ReadError>, start: S,
                                                  fs: seq<Numbered>, more: seq<Numbered>)
    ensures FoldFields(step, start, fs + more)
         == match FoldFields(step, start, fs)
            case Err(e) => Err(e)
            case Ok(value) => FoldFields(step, value, more)
  {
    if fs == [] {
      assert fs + more == more;
    } else {
      assert (fs + more)[1..] == fs[1..] + more;
      var next := step(start, fs[0]);
      if next.Ok? {
        FoldOfConcatenation(step, next.value, fs[1..], more);
      }
    }
  }

  // ---------------------------------------------- what each field of a message sets

  function Then<A, B>(r: Result<A, ReadError>, f: A -> B): Result<B, ReadError> {
    match r
    case Ok(v) => Ok(f(v))
    case Err(e) => Err(e)
  }

  function TimestampStep(timestamp: int, f: Numbered): Result<int, ReadError> {
    if f.number == 1 then Then(AsInt(f.field, I64_MAX), (v: nat) => v) else Ok(timestamp)
  }

  function EntryStep(entry: (U32, Bytes), f: Numbered): Result<(U32, Bytes), ReadError> {
    match f.number
    case 1 => Then(AsU32(f.field), v => (v, entry.1))
    case 2 => Then(AsBytes(f.field), b => (entry.0, b))
    case _ => Ok(entry)
  }

  function SevSnpStep(snp: SevSnpGolden, f: Numbered): Result<SevSnpGolden, ReadError> {
    match f.number
    case 1 => Then(AsU32(f.field), v => snp.(svn := v))
    case 2 => Then(EntryOf(f.field), (e: (U32, Bytes)) => snp.(measurements := snp.measurements[e.0 := e.1]))
    case 5 => Then(AsVarint(f.field), v => snp.(policy := v))
    case 7 => Then(AsBytes(f.field), b => snp.(svsmMeasurement := b))
    case _ => Ok(snp)
  }

  function MeasurementStep(m: TdxMeasurement, f: Numbered): Result<TdxMeasurement, ReadError> {
    match f.number
    case 1 => Then(AsU32(f.field), v => m.(ramGib := v))
    case 2 => Then(AsVarint(f.field), (v: U64) => m.(earlyAccept := v != 0))
    case 3 => Then(AsBytes(f.field), b => m.(mrtd := b))
    case _ => Ok(m)
  }

  function TdxStep(tdx: TdxGolden, f: Numbered): Result<TdxGolden, ReadError> {
    match f.number
    case 1 => Then(AsU32(f.field), v => tdx.(svn := v))
    case 2 => Then(MeasurementOf(f.field), m => tdx.(measurements := tdx.measurements + [m]))
    case _ => Ok(tdx)
  }

  function GoldenStep(golden: Golden, f: Numbered): Result<Golden, ReadError> {
    match f.number
    case 1 => Then(TimestampOf(golden.timestamp, f.field), t => golden.(timestamp := t))
    case 2 => Then(AsVarint(f.field), v => golden.(clSpec := v))
    case 3 => Then(AsBytes(f.field), b => golden.(commit := b))
    case 4 => Then(AsBytes(f.field), b => golden.(cert := b))
    case 5 => Then(AsBytes(f.field), b => golden.(digest := b))
    case 7 => Then(SevSnpIn(f.field), snp => golden.(sevSnp := Some(snp)))
    case 8 => Then(TdxIn(f.field), tdx => golden.(tdx := Some(tdx)))
    case _ => Ok(golden)
  }

  /** The embedded message `f`, read field by field from `start`. */
  function ReadIn<S>(step: (S, Numbered) -> Result<S, ReadError>, start: S, f: Field): Result<S, ReadError> {
    match f
    case Delimited(data) => ReadMessage(step, start, data)
    case _ => Err(ExpectedBytes)
  }

  function ReadMessage<S>(step: (S, Numbered) -> Result<S, ReadError>, start: S, buf: Bytes): Result<S, ReadError> {
    match Parsed(buf)
    case Err(e) => Err(Malformed(e))
    case Ok(fs) => FoldFields(step, start, fs)
  }

  function TimestampOf(t: int, f: Field): Result<int, ReadError> { ReadIn(TimestampStep, t, f) }
  function EntryOf(f: Field): Result<(U32, Bytes), ReadError> { ReadIn(EntryStep, (0, []), f) }
  function SevSnpIn(f: Field): Result<SevSnpGolden, ReadError> { ReadIn(SevSnpStep, NO_SEV_SNP, f) }
  function MeasurementOf(f: Field): Result<TdxMeasurement, ReadError> { ReadIn(MeasurementStep, NO_TDX_MEASUREMENT, f) }
  function TdxIn(f: Field): Result<TdxGolden, ReadError> { ReadIn(TdxStep, NO_TDX, f) }
  function GoldenOf(buf: Bytes): Result<Golden, ReadError> { ReadMessage(GoldenStep, NO_GOLDEN, buf) }

  method ParseGolden(buf: Bytes) returns (r: Result<Golden, ReadError>)
    ensures r == GoldenOf(buf)
  {
    var fs := Fields(buf);
    if fs.Err? {
      return Err(Malformed(fs.error));
    }
    r := ReadEach(GoldenStep, NO_GOLDEN, fs.value);
  }

  // ------------------------------------------------------- the last of a field

  /** The last length-delimited value of field `number` after `value`; no other kind is allowed there. */
  function LastFrom(value: Option<Bytes>, fs: seq<Numbered>, number: nat): Result<Option<Bytes>, ReadError>
    decreases |fs|
  {
    if fs == [] then Ok(value)
    else if fs[0].number != number then LastFrom(value, fs[1..], number)
    else match AsBytes(fs[0].field)
      case Err(e) => Err(e)
      case Ok(b) => LastFrom(Some(b), fs[1..], number)
  }

  function LastIn(message: Bytes, number: nat): Result<Option<Bytes>, ReadError> {
    match Parsed(message)
    case Err(e) => Err(Malformed(e))
    case Ok(fs) => LastFrom(None, fs, number)
  }

  method LastBytes(message: Bytes, number: nat) returns (r: Result<Option<Bytes>, ReadError>)
    ensures r == LastIn(message, number)
  {
    var read := Fields(message);
    if read.Err? {
      return Err(Malformed(read.error));
    }
    var fs, value := read.value, None;
    assert fs[0..] == fs;
    for i := 0 to |fs|
      invariant LastFrom(None, fs, number) == LastFrom(value, fs[i..], number)
    {
      assert fs[i..][1..] == fs[i + 1..];
      if fs[i].number == number {
        if !fs[i].field.Delimited? {
          return Err(ExpectedBytes);
        }
        value := Some(fs[i].field.data);
      }
    }
    r := Ok(value);
  }

  /** A known field of another kind, or a number that does not fit, is an error that says which. */
  lemma {:induction false} WrongFieldsAreRefused(golden: Golden, snp: SevSnpGolden, tdx: TdxGolden, m: TdxMeasurement, f: Numbered)
    ensures f.number in BYTES_FIELDS + {1} && !f.field.Delimited? ==> GoldenStep(golden, f) == Err(ExpectedBytes)
    ensures f.number == 2 && !f.field.Varint? ==> GoldenStep(golden, f) == Err(ExpectedVarint)
    ensures f.number == 1 && !f.field.Varint? ==>
      && TimestampStep(golden.timestamp, f) == Err(ExpectedVarint) && SevSnpStep(snp, f) == Err(ExpectedVarint)
      && TdxStep(tdx, f) == Err(ExpectedVarint) && MeasurementStep(m, f) == Err(ExpectedVarint)
    ensures f.number == 1 && f.field.Varint? && f.field.v >= 0x1_0000_0000 ==>
      SevSnpStep(snp, f) == Err(OutOfRange) && TdxStep(tdx, f) == Err(OutOfRange) && MeasurementStep(m, f) == Err(OutOfRange)
    ensures f.number == 1 && f.field.Varint? ==>
      TimestampStep(golden.timestamp, f) == if f.field.v >= 0x8000_0000_0000_0000 then Err(OutOfRange) else Ok(f.field.v)
  {}

  /** What the golden measurement holds when the last value of a field was `v`. */
  ghost predicate Holds(golden: Golden, number: nat, v: Option<Bytes>) {
    match number
    case 3 => golden.commit == if v.Some? then v.value else []
    case 4 => golden.cert == if v.Some? then v.value else []
    case 5 => golden.digest == if v.Some? then v.value else []
    case 7 => (match v
               case None => golden.sevSnp == None
               case Some(b) => golden.sevSnp.Some? && ReadMessage(SevSnpStep, NO_SEV_SNP, b) == Ok(golden.sevSnp.value))
    case 8 => (match v
               case None => golden.tdx == None
               case Some(b) => golden.tdx.Some? && ReadMessage(TdxStep, NO_TDX, b) == Ok(golden.tdx.value))
    case _ => true
  }

  const BYTES_FIELDS: set<nat> := {3, 4, 5, 7, 8}

  lemma {:induction false} StepKeepsLast(golden: Golden, f: Numbered, v: Option<Bytes>, number: nat)
    requires number in BYTES_FIELDS && Holds(golden, number, v) && GoldenStep(golden, f).Ok?
    ensures f.number == number ==> f.field.Delimited?
    ensures Holds(GoldenStep(golden, f).value, number, if f.number == number then Some(f.field.data) else v)
  {}

  lemma {:induction false} FoldKeepsLast(golden: Golden, fs: seq<Numbered>, v: Option<Bytes>, number: nat)
    requires number in BYTES_FIELDS && Holds(golden, number, v) && FoldFields(GoldenStep, golden, fs).Ok?
    ensures LastFrom(v, fs, number).Ok?
    ensures Holds(FoldFields(GoldenStep, golden, fs).value, number, LastFrom(v, fs, number).value)
    decreases |fs|
  {
    if fs != [] {
      StepKeepsLast(golden, fs[0], v, number);
      var next := GoldenStep(golden, fs[0]).value;
      FoldKeepsLast(next, fs[1..], if fs[0].number == number then Some(fs[0].field.data) else v, number);
    }
  }

  /**
   The two readings of a message agree: of a repeated field the last value
   counts, in `last_bytes` and in the parsed golden measurement alike.
   */
  lemma {:induction false} LastValueWins(buf: Bytes, number: nat)
    requires number in BYTES_FIELDS && GoldenOf(buf).Ok?
    ensures LastIn(buf, number).Ok? && Holds(GoldenOf(buf).value, number, LastIn(buf, number).value)
  {
    FoldKeepsLast(NO_GOLDEN, Parsed(buf).value, None, number);
  }

  predicate Known(number: nat) {
    number in {1, 2, 3, 4, 5, 7, 8}
  }

  function KnownFields(fs: seq<Numbered>): seq<Numbered> {
    if fs == [] then []
    else if Known(fs[0].number) then [fs[0]] + KnownFields(fs[1..])
    else KnownFields(fs[1..])
  }

  /** Unknown fields, wherever they stand, change nothing: neither the value nor an error. */
  lemma {:induction false} UnknownFieldsAreIgnored(golden: Golden, fs: seq<Numbered>)
    ensures FoldFields(GoldenStep, golden, KnownFields(fs)) == FoldFields(GoldenStep, golden, fs)
    decreases |fs|
  {
    if fs != [] {
      var next := GoldenStep(golden, fs[0]);
      if Known(fs[0].number) {
        assert KnownFields(fs)[1..] == KnownFields(fs[1..]);
      }
      if next.Ok? {
        UnknownFieldsAreIgnored(next.value, fs[1..]);
      }
    }
  }

  /** A message appended to an accepted one is read on top of what the first one set. */
  lemma {:induction false} AppendedMessageOverrides(buf: Bytes, more: Bytes)
    requires GoldenOf(buf).Ok?
    ensures GoldenOf(buf + more) == ReadMessage(GoldenStep, GoldenOf(buf).value, more)
  {
    ParseOfConcatenation(buf, more);
    if Parsed(more).Ok? {
      FoldOfConcatenation(GoldenStep, NO_GOLDEN, Parsed(buf).value, Parsed(more).value);
    }
  }

  // ------------------------------------------------------ the endorsement check

  datatype CheckError =
    | Unreadable(error: ReadError) | NoGolden | NoSignature | NoCert
    | BadSignature | BadSigner | DoesNotVerify | MissingProvenance

  /** Certificate and RSA checks: what `signer_key` and the signature check answer. */
  datatype Crypto<!Key, !Window> = Crypto(
    isSignature: Bytes -> bool,
    signerKey: Bytes -> Option<(Key, Window)>,
    verifies: (Key, Bytes, Bytes) -> bool)

  predicate HasProvenance(golden: Golden) {
    golden.timestamp <= PROVENANCE_REQUIRED_AFTER || golden.clSpec != 0 || golden.commit != []
  }

  function Required(r: Result<Option<Bytes>, ReadError>, missing: CheckError): Result<Bytes, CheckError> {
    match r
    case Err(e) => Err(Unreadable(e))
    case Ok(None) => Err(missing)
    case Ok(Some(b)) => Ok(b)
  }

  /** What `check_endorsement` answers. */
  function Checked<Key, Window>(crypto: Crypto<Key, Window>, endorsement: Bytes): Result<(Golden, Window), CheckError> {
    var signed :- Required(LastIn(endorsement, 1), NoGolden);
    var signature :- Required(LastIn(endorsement, 2), NoSignature);
    var cert :- Required(LastIn(signed, 4), NoCert);
    if !crypto.isSignature(signature) then Err(BadSignature)
    else if crypto.signerKey(cert).None? then Err(BadSigner)
    else
      var (key, window) := crypto.signerKey(cert).value;
      if !crypto.verifies(key, signed, signature) then Err(DoesNotVerify)
      else match GoldenOf(signed)
        case Err(e) => Err(Unreadable(e))
        case Ok(golden) => if HasProvenance(golden) then Ok((golden, window)) else Err(MissingProvenance)
  }

  method CheckEndorsement<Key, Window(!new)>(crypto: Crypto<Key, Window>, endorsement: Bytes)
    returns (r: Result<(Golden, Window), CheckError>)
    ensures r == Checked(crypto, endorsement)
    // Accepted: the measurement is the parse of the signed bytes, under the key of its own certificate.
    ensures r.Ok? ==> Endorsed(crypto, endorsement, r.value.0, r.value.1)
    // Refused: nothing could have been accepted.
    ensures r.Err? ==> NothingEndorsed(crypto, endorsement)
  {
    EndorsedMeans(crypto, endorsement);
    hide LastIn, GoldenOf, Endorsed, NothingEndorsed;
    var readGolden := LastBytes(endorsement, 1);
    var goldenBytes :- Required(readGolden, NoGolden);
    var readSignature := LastBytes(endorsement, 2);
    var signature :- Required(readSignature, NoSignature);
    var readCert := LastBytes(goldenBytes, 4);
    var cert :- Required(readCert, NoCert);
    if !crypto.isSignature(signature) { return Err(BadSignature); }
    var signer := crypto.signerKey(cert);
    if signer.None? { return Err(BadSigner); }
    if !crypto.verifies(signer.value.0, goldenBytes, signature) { return Err(DoesNotVerify); }
    var golden := ParseGolden(goldenBytes);
    if golden.Err? { return Err(Unreadable(golden.error)); }
    if golden.value.timestamp > PROVENANCE_REQUIRED_AFTER && golden.value.clSpec == 0 && golden.value.commit == [] {
      return Err(MissingProvenance);
    }
    r := Ok((golden.value, signer.value.1));
  }

  /** `golden` is what was signed, and the key that signed it is the one its `cert` field names. */
  ghost predicate Endorsed<Key, Window>(crypto: Crypto<Key, Window>, endorsement: Bytes, golden: Golden, window: Window) {
    var signed, signature := LastIn(endorsement, 1), LastIn(endorsement, 2);
    && signed.Ok? && signed.value.Some? && signature.Ok? && signature.value.Some?
    && crypto.isSignature(signature.value.value)
    && GoldenOf(signed.value.value) == Ok(golden)
    && LastIn(signed.value.value, 4) != Ok(None)
    && HasProvenance(golden)
    && crypto.signerKey(golden.cert).Some?
    && crypto.signerKey(golden.cert).value.1 == window
    && crypto.verifies(crypto.signerKey(golden.cert).value.0, signed.value.value, signature.value.value)
  }

  ghost predicate NothingEndorsed<Key, Window(!new)>(crypto: Crypto<Key, Window>, endorsement: Bytes) {
    forall golden, window :: !Endorsed(crypto, endorsement, golden, window)
  }

  /** Accepted are exactly the endorsed measurements: the certificate looked up first is the one of the parse. */
  lemma {:induction false} EndorsedMeans<Key, Window(!new)>(crypto: Crypto<Key, Window>, endorsement: Bytes)
    ensures var r := Checked(crypto, endorsement);
      && (r.Ok? ==> Endorsed(crypto, endorsement, r.value.0, r.value.1))
      && (r.Err? ==> NothingEndorsed(crypto, endorsement))
      && (forall golden, window :: Endorsed(crypto, endorsement, golden, window) ==> r == Ok((golden, window)))
  {
    hide LastIn, GoldenOf;
    var signed := LastIn(endorsement, 1);
    if signed.Ok? && signed.value.Some? && GoldenOf(signed.value.value).Ok? {
      LastValueWins(signed.value.value, 4);
    }
  }

  /** The order in which an endorsement is looked at: each reason counts only when all before it are right. */
  lemma {:induction false} WhyNotEndorsed<Key, Window>(crypto: Crypto<Key, Window>, endorsement: Bytes)
    ensures var (checked, signed, signature) := (Checked(crypto, endorsement), LastIn(endorsement, 1), LastIn(endorsement, 2));
      && (signed.Err? ==> checked == Err(Unreadable(signed.error)))
      && (signed == Ok(None) <==> checked == Err(NoGolden))
      && (signed.Ok? && signed.value.Some? ==>
            && (signature.Err? ==> checked == Err(Unreadable(signature.error)))
            && (signature == Ok(None) <==> checked == Err(NoSignature))
            && (signature.Ok? && signature.value.Some? ==>
                  SignedMeans(crypto, signed.value.value, signature.value.value, checked)))
  {
    hide LastIn, GoldenOf;
  }

  /** Of a message that is signed and has its signature. */
  predicate SignedMeans<Key, Window>(crypto: Crypto<Key, Window>, signed: Bytes, signature: Bytes,
                                     checked: Result<(Golden, Window), CheckError>) {
    var cert := LastIn(signed, 4);
    && (cert.Err? ==> checked == Err(Unreadable(cert.error)))
    && (cert == Ok(None) <==> checked == Err(NoCert))
    && (cert.Ok? && cert.value.Some? ==>
          var signer := crypto.signerKey(cert.value.value);
          && (!crypto.isSignature(signature) <==> checked == Err(BadSignature))
          && (crypto.isSignature(signature) && signer.None? <==> checked == Err(BadSigner))
          && (crypto.isSignature(signature) && signer.Some? ==>
                (!crypto.verifies(signer.value.0, signed, signature) <==> checked == Err(DoesNotVerify))))
  }

  /** An endorsement signed after 2 August 2024 says what was built: a changelist or a commit. Older ones need neither. */
  lemma {:induction false} ProvenanceMeans<Key, Window>(crypto: Crypto<Key, Window>, endorsement: Bytes, golden: Golden, window: Window)
    requires LastIn(endorsement, 1).Ok? && LastIn(endorsement, 1).value.Some? && LastIn(endorsement, 2).Ok? && LastIn(endorsement, 2).value.Some?
    requires var (signed, signature) := (LastIn(endorsement, 1).value.value, LastIn(endorsement, 2).value.value);
      && crypto.isSignature(signature) && GoldenOf(signed) == Ok(golden) && LastIn(signed, 4) != Ok(None)
      && crypto.signerKey(golden.cert).Some? && crypto.signerKey(golden.cert).value.1 == window
      && crypto.verifies(crypto.signerKey(golden.cert).value.0, signed, signature)
    ensures Endorsed(crypto, endorsement, golden, window)
       <==> golden.timestamp <= 19937 * 24 * 3600 || golden.clSpec > 0 || |golden.commit| > 0
  {}

  lemma {:induction false} NoCertNoEndorsement<Key, Window>(crypto: Crypto<Key, Window>, endorsement: Bytes)
    requires var signed := LastIn(endorsement, 1);
      signed.Ok? && signed.value.Some? && !(LastIn(signed.value.value, 4).Ok? && LastIn(signed.value.value, 4).value.Some?)
    ensures forall golden, window :: !Endorsed(crypto, endorsement, golden, window)
  {
    var signed := LastIn(endorsement, 1).value.value;
    if GoldenOf(signed).Ok? {
      LastValueWins(signed, 4);
    }
  }

  /** An absent field is a zero, no bytes, or nothing at all: this is what empty messages read as. */
  lemma {:induction false} EmptyMessagesAreZero()
    ensures GoldenOf([]) == Ok(Golden(0, 0, [], [], [], None, None))
    ensures SevSnpIn(Delimited([])) == Ok(SevSnpGolden(0, map[], 0, []))
    ensures TdxIn(Delimited([])) == Ok(TdxGolden(0, []))
    ensures MeasurementOf(Delimited([])) == Ok(TdxMeasurement(0, false, []))
    ensures EntryOf(Delimited([])) == Ok((0, []))
    ensures forall t :: TimestampOf(t, Delimited([])) == Ok(t)
  {
    assert Parsed([]) == Ok([]);
  }
}
