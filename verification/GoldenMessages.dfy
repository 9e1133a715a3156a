/**
 Golden measurements printed as the messages Google defines, field by field:
 the reference the reader of endorsements is compared with. What is read is
 what was printed, down to every SEV-SNP and TDX measurement.
 */
module GoldenMessages {
  import opened Prelude
  import opened Protobuf
  import opened Endorsement

  function NumberField(n: nat, v: U64): Numbered {
    Numbered(n, Varint(v))
  }

  function BytesField(n: nat, b: Bytes): Numbered {
    Numbered(n, Delimited(b))
  }

  /** `b` is the message of `fs`, short enough to be embedded. */
  ghost predicate IsMessage(b: Bytes, fs: seq<Numbered>) {
    Printable(fs) && b == Print(fs) && |b| < U64_LIMIT
  }

  // --------------------------------------------------------------- reading steps

  lemma {:induction false} ReadPrinted<S>(step: (S, Numbered) -> Result<S, ReadError>, start: S, b: Bytes, fs: seq<Numbered>)
    requires IsMessage(b, fs)
    ensures ReadMessage(step, start, b) == FoldFields(step, start, fs)
  {
    MessagesAreCanonical(b, fs);
  }

  lemma {:induction false} FoldOne<S>(step: (S, Numbered) -> Result<S, ReadError>, start: S, f: Numbered, fs: seq<Numbered>)
    requires step(start, f).Ok?
    ensures FoldFields(step, start, [f] + fs) == FoldFields(step, step(start, f).value, fs)
  {}

  lemma {:induction false} FoldLast<S>(step: (S, Numbered) -> Result<S, ReadError>, start: S, fs: seq<Numbered>, f: Numbered)
    requires FoldFields(step, start, fs).Ok?
    ensures FoldFields(step, start, fs + [f]) == step(FoldFields(step, start, fs).value, f)
  {
    FoldOfConcatenation(step, start, fs, [f]);
    var value := FoldFields(step, start, fs).value;
    if step(value, f).Ok? {
      assert [f][1..] == [];
    }
  }

  // ---------------------------------------------------------------------- SEV-SNP

  /** One measurement: the number of vCPUs and the digest, and its printed message. */
  datatype Entry = Entry(vcpus: U32, digest: Bytes, printed: Bytes)

  ghost predicate EntryPrinted(e: Entry) {
    IsMessage(e.printed, [NumberField(1, e.vcpus), BytesField(2, e.digest)])
  }

  function Measurements(es: seq<Entry>): map<U32, Bytes> {
    if es == [] then map[]
    else Measurements(es[..|es| - 1])[es[|es| - 1].vcpus := es[|es| - 1].digest]
  }

  function EntryFields(es: seq<Entry>): seq<Numbered> {
    if es == [] then [] else EntryFields(es[..|es| - 1]) + [BytesField(2, es[|es| - 1].printed)]
  }

  function SevSnpFields(snp: SevSnpGolden, es: seq<Entry>): seq<Numbered> {
    [NumberField(1, snp.svn)] + EntryFields(es) + [NumberField(5, snp.policy)] + [BytesField(7, snp.svsmMeasurement)]
  }

  lemma {:induction false} EntryIsRead(e: Entry)
    requires EntryPrinted(e)
    ensures EntryOf(Delimited(e.printed)) == Ok((e.vcpus, e.digest))
  {
    var k, v := NumberField(1, e.vcpus), BytesField(2, e.digest);
    assert [k, v] == [k] + [v];
    var start: (U32, Bytes) := (0, []);
    ReadPrinted(EntryStep, start, e.printed, [k, v]);
    FoldOne(EntryStep, start, k, [v]);
    FoldLast(EntryStep, (e.vcpus, []), [], v);
    assert [] + [v] == [v];
  }

  lemma {:induction false} EntriesAreRead(snp: SevSnpGolden, es: seq<Entry>)
    requires snp.measurements == map[] && forall i :: 0 <= i < |es| ==> EntryPrinted(es[i])
    ensures FoldFields(SevSnpStep, snp, EntryFields(es)) == Ok(snp.(measurements := Measurements(es)))
  {
    if es != [] {
      var n := |es| - 1;
      EntriesAreRead(snp, es[..n]);
      EntryIsRead(es[n]);
      FoldLast(SevSnpStep, snp, EntryFields(es[..n]), BytesField(2, es[n].printed));
    }
  }

  /** A printed SEV-SNP measurement is read back; of two entries for one vCPU count the later one counts. */
  lemma {:induction false} SevSnpIsRead(snp: SevSnpGolden, es: seq<Entry>, printed: Bytes)
    requires IsMessage(printed, SevSnpFields(snp, es))
    requires snp.measurements == Measurements(es) && forall i :: 0 <= i < |es| ==> EntryPrinted(es[i])
    ensures SevSnpIn(Delimited(printed)) == Ok(snp)
  {
    var svn, policy, svsm := NumberField(1, snp.svn), NumberField(5, snp.policy), BytesField(7, snp.svsmMeasurement);
    var first := NO_SEV_SNP.(svn := snp.svn);
    var second := first.(measurements := snp.measurements);
    ReadPrinted(SevSnpStep, NO_SEV_SNP, printed, SevSnpFields(snp, es));
    EntriesAreRead(first, es);
    FoldOne(SevSnpStep, NO_SEV_SNP, svn, EntryFields(es));
    FoldLast(SevSnpStep, NO_SEV_SNP, [svn] + EntryFields(es), policy);
    FoldLast(SevSnpStep, NO_SEV_SNP, [svn] + EntryFields(es) + [policy], svsm);
  }

  // -------------------------------------------------------------------------- TDX

  datatype RamEntry = RamEntry(m: TdxMeasurement, printed: Bytes)

  function MeasurementFields(m: TdxMeasurement): seq<Numbered> {
    [NumberField(1, m.ramGib)] + [NumberField(2, if m.earlyAccept then 1 else 0)] + [BytesField(3, m.mrtd)]
  }

  ghost predicate RamEntryPrinted(e: RamEntry) {
    IsMessage(e.printed, MeasurementFields(e.m))
  }

  function RamEntryFields(es: seq<RamEntry>): seq<Numbered> {
    if es == [] then [] else RamEntryFields(es[..|es| - 1]) + [BytesField(2, es[|es| - 1].printed)]
  }

  function MeasurementsOf(es: seq<RamEntry>): seq<TdxMeasurement> {
    if es == [] then [] else MeasurementsOf(es[..|es| - 1]) + [es[|es| - 1].m]
  }

  lemma {:induction false} MeasurementIsRead(e: RamEntry)
    requires RamEntryPrinted(e)
    ensures MeasurementOf(Delimited(e.printed)) == Ok(e.m)
  {
    var ram, early, mrtd := NumberField(1, e.m.ramGib), NumberField(2, if e.m.earlyAccept then 1 else 0), BytesField(3, e.m.mrtd);
    ReadPrinted(MeasurementStep, NO_TDX_MEASUREMENT, e.printed, MeasurementFields(e.m));
    FoldLast(MeasurementStep, NO_TDX_MEASUREMENT, [], ram);
    assert [] + [ram] == [ram];
    FoldLast(MeasurementStep, NO_TDX_MEASUREMENT, [ram], early);
    FoldLast(MeasurementStep, NO_TDX_MEASUREMENT, [ram] + [early], mrtd);
  }

  lemma {:induction false} MeasurementsAreRead(tdx: TdxGolden, es: seq<RamEntry>)
    requires tdx.measurements == [] && forall i :: 0 <= i < |es| ==> RamEntryPrinted(es[i])
    ensures FoldFields(TdxStep, tdx, RamEntryFields(es)) == Ok(tdx.(measurements := MeasurementsOf(es)))
  {
    if es != [] {
      var n := |es| - 1;
      MeasurementsAreRead(tdx, es[..n]);
      MeasurementIsRead(es[n]);
      FoldLast(TdxStep, tdx, RamEntryFields(es[..n]), BytesField(2, es[n].printed));
    }
  }

  /** A printed TDX measurement is read back, its RAM sizes in order. */
  lemma {:induction false} TdxIsRead(tdx: TdxGolden, es: seq<RamEntry>, printed: Bytes)
    requires IsMessage(printed, [NumberField(1, tdx.svn)] + RamEntryFields(es))
    requires tdx.measurements == MeasurementsOf(es) && forall i :: 0 <= i < |es| ==> RamEntryPrinted(es[i])
    ensures TdxIn(Delimited(printed)) == Ok(tdx)
  {
    var svn := NumberField(1, tdx.svn);
    ReadPrinted(TdxStep, NO_TDX, printed, [svn] + RamEntryFields(es));
    FoldOne(TdxStep, NO_TDX, svn, RamEntryFields(es));
    MeasurementsAreRead(NO_TDX.(svn := tdx.svn), es);
  }

  // ----------------------------------------------------------- the whole measurement

  /** The embedded messages of a golden measurement, where it has them. */
  datatype Embedded = Embedded(timestamp: Bytes, sevSnp: Option<Bytes>, tdx: Option<Bytes>)

  /** The embedded messages read back as the parts of `g`. */
  ghost predicate EmbeddedIn(g: Golden, e: Embedded) {
    && 0 <= g.timestamp <= I64_MAX && IsMessage(e.timestamp, [NumberField(1, g.timestamp)])
    && (e.sevSnp.Some? <==> g.sevSnp.Some?) && (e.tdx.Some? <==> g.tdx.Some?)
    && (g.sevSnp.Some? ==> SevSnpIn(Delimited(e.sevSnp.value)) == Ok(g.sevSnp.value))
    && (g.tdx.Some? ==> TdxIn(Delimited(e.tdx.value)) == Ok(g.tdx.value))
  }

  function OptionalField(n: nat, b: Option<Bytes>): seq<Numbered> {
    match b
    case None => []
    case Some(data) => [BytesField(n, data)]
  }

  function HeadFields(g: Golden, e: Embedded): seq<Numbered> {
    [BytesField(1, e.timestamp)] + [NumberField(2, g.clSpec)] + [BytesField(3, g.commit)]
    + [BytesField(4, g.cert)] + [BytesField(5, g.digest)]
  }

  function GoldenFields(g: Golden, e: Embedded): seq<Numbered> {
    HeadFields(g, e) + OptionalField(7, e.sevSnp) + OptionalField(8, e.tdx)
  }

  lemma {:induction false} TimestampIsRead(g: Golden, e: Embedded)
    requires EmbeddedIn(g, e)
    ensures TimestampOf(0, Delimited(e.timestamp)) == Ok(g.timestamp)
  {
    var seconds := NumberField(1, g.timestamp);
    ReadPrinted(TimestampStep, 0, e.timestamp, [seconds]);
    FoldLast(TimestampStep, 0, [], seconds);
    assert [] + [seconds] == [seconds];
  }

  lemma {:induction false} HeadIsRead(g: Golden, e: Embedded)
    requires EmbeddedIn(g, e)
    ensures FoldFields(GoldenStep, NO_GOLDEN, HeadFields(g, e)) == Ok(g.(sevSnp := None, tdx := None))
  {
    var t, s, c := BytesField(1, e.timestamp), NumberField(2, g.clSpec), BytesField(3, g.commit);
    var cert, d := BytesField(4, g.cert), BytesField(5, g.digest);
    TimestampIsRead(g, e);
    FoldLast(GoldenStep, NO_GOLDEN, [], t);
    assert [] + [t] == [t];
    FoldLast(GoldenStep, NO_GOLDEN, [t], s);
    FoldLast(GoldenStep, NO_GOLDEN, [t] + [s], c);
    FoldLast(GoldenStep, NO_GOLDEN, [t] + [s] + [c], cert);
    FoldLast(GoldenStep, NO_GOLDEN, [t] + [s] + [c] + [cert], d);
  }

  lemma {:induction false} SevSnpIsFolded(before: Golden, fs: seq<Numbered>, g: Golden, e: Embedded)
    requires EmbeddedIn(g, e) && FoldFields(GoldenStep, NO_GOLDEN, fs) == Ok(before) && before.sevSnp == None
    ensures FoldFields(GoldenStep, NO_GOLDEN, fs + OptionalField(7, e.sevSnp)) == Ok(before.(sevSnp := g.sevSnp))
  {
    if g.sevSnp.Some? {
      FoldLast(GoldenStep, NO_GOLDEN, fs, BytesField(7, e.sevSnp.value));
    } else {
      assert fs + [] == fs;
    }
  }

  lemma {:induction false} TdxIsFolded(before: Golden, fs: seq<Numbered>, g: Golden, e: Embedded)
    requires EmbeddedIn(g, e) && FoldFields(GoldenStep, NO_GOLDEN, fs) == Ok(before) && before.tdx == None
    ensures FoldFields(GoldenStep, NO_GOLDEN, fs + OptionalField(8, e.tdx)) == Ok(before.(tdx := g.tdx))
  {
    if g.tdx.Some? {
      FoldLast(GoldenStep, NO_GOLDEN, fs, BytesField(8, e.tdx.value));
    } else {
      assert fs + [] == fs;
    }
  }

  /** The embedded messages are the prints of the parts of `g`, with these entries and RAM sizes. */
  ghost predicate EmbeddedPrinted(g: Golden, e: Embedded, es: seq<Entry>, ms: seq<RamEntry>) {
    && 0 <= g.timestamp <= I64_MAX && IsMessage(e.timestamp, [NumberField(1, g.timestamp)])
    && (e.sevSnp.Some? <==> g.sevSnp.Some?) && (e.tdx.Some? <==> g.tdx.Some?)
    && (g.sevSnp.Some? ==> SevSnpPrinted(g.sevSnp.value, es, e.sevSnp.value))
    && (g.tdx.Some? ==> TdxPrinted(g.tdx.value, ms, e.tdx.value))
  }

  ghost predicate SevSnpPrinted(snp: SevSnpGolden, es: seq<Entry>, printed: Bytes) {
    && IsMessage(printed, SevSnpFields(snp, es))
    && snp.measurements == Measurements(es) && forall i :: 0 <= i < |es| ==> EntryPrinted(es[i])
  }

  ghost predicate TdxPrinted(tdx: TdxGolden, ms: seq<RamEntry>, printed: Bytes) {
    && IsMessage(printed, [NumberField(1, tdx.svn)] + RamEntryFields(ms))
    && tdx.measurements == MeasurementsOf(ms) && forall i :: 0 <= i < |ms| ==> RamEntryPrinted(ms[i])
  }

  lemma {:induction false} EmbeddedIsRead(g: Golden, e: Embedded, es: seq<Entry>, ms: seq<RamEntry>)
    requires EmbeddedPrinted(g, e, es, ms)
    ensures EmbeddedIn(g, e)
  {
    hide SevSnpFields, RamEntryFields, Measurements, MeasurementsOf, Print, FoldFields;
    if g.sevSnp.Some? {
      SevSnpIsRead(g.sevSnp.value, es, e.sevSnp.value);
    }
    if g.tdx.Some? {
      TdxIsRead(g.tdx.value, ms, e.tdx.value);
    }
  }

  /**
   Reading a printed golden measurement gives it back: every field by its number,
   and every SEV-SNP entry and TDX RAM size of the messages embedded in it.
   */
  lemma {:induction false} GoldenRoundTrip(g: Golden, e: Embedded, es: seq<Entry>, ms: seq<RamEntry>, printed: Bytes)
    requires EmbeddedPrinted(g, e, es, ms) && IsMessage(printed, GoldenFields(g, e))
    ensures GoldenOf(printed) == Ok(g)
  {
    hide EmbeddedPrinted, EmbeddedIn, HeadFields, OptionalField, FoldFields, GoldenStep, Print;
    EmbeddedIsRead(g, e, es, ms);
    ReadPrinted(GoldenStep, NO_GOLDEN, printed, GoldenFields(g, e));
    HeadIsRead(g, e);
    var head := g.(sevSnp := None, tdx := None);
    SevSnpIsFolded(head, HeadFields(g, e), g, e);
    TdxIsFolded(head.(sevSnp := g.sevSnp), HeadFields(g, e) + OptionalField(7, e.sevSnp), g, e);
  }
}
