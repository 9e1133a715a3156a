/**
 PCR values beside a quote. The attester supplies the whole array; the quote
 signs a digest over the PCRs it selects. A verdict must depend on nothing
 else, unless SHA-256 collides.
 */
module TpmPcrs {
  import opened Prelude
  import opened TpmQuote

  const INIT_DATA_PCR := 8
  const HIGHEST_PIN := 23

  datatype Unit = Unit

  // ---------------------------------------------------------------- the digest

  /** The first entry from `i` on that is not 32 bytes. */
  function FirstOddSize(pcrs: seq<Bytes>, i: nat): (odd: Option<nat>)
    requires i <= |pcrs|
    ensures odd.Some? ==> i <= odd.value < |pcrs| && |pcrs[odd.value]| != 32
    ensures odd.Some? ==> forall j :: i <= j < odd.value ==> |pcrs[j]| == 32
    ensures odd.None? <==> forall j :: i <= j < |pcrs| ==> |pcrs[j]| == 32
    decreases |pcrs| - i
  {
    if i == |pcrs| then None else if |pcrs[i]| != 32 then Some(i) else FirstOddSize(pcrs, i + 1)
  }

  predicate All32(pcrs: seq<Bytes>) {
    forall i :: 0 <= i < |pcrs| ==> |pcrs[i]| == 32
  }

  /** The selected values one after the other; an error at the first that is not there. */
  function Chosen(pcrs: seq<Bytes>, selected: seq<nat>): (r: Result<Bytes, Error>)
    ensures r.Ok? <==> forall k :: k in selected ==> k < |pcrs|
  {
    if selected == [] then Ok([])
    else
      var n := |selected| - 1;
      assert selected == selected[..n] + [selected[n]];
      assert selected[n] in selected && forall k :: k in selected[..n] ==> k in selected;
      match Chosen(pcrs, selected[..n])
      case Err(e) => Err(e)
      case Ok(before) => if selected[n] >= |pcrs| then Err(NoSuchPcr(selected[n], |pcrs|)) else Ok(before + pcrs[selected[n]])
  }

  /** What `verify_tpm_pcrs` answers when the message reads as `quote`, here and below. */
  function Verified(sha: Sha256, quote: Result<QuoteInfo, Error>, pcrs: seq<Bytes>): Result<Unit, Error> {
    if pcrs == [] then
      Err(NoPcrs)
    else
      match FirstOddSize(pcrs, 0)
      case Some(i) => Err(PcrSize(i, |pcrs[i]|))
      case None =>
        var info :- quote;
        var chosen :- Chosen(pcrs, info.selected);
        if sha(chosen) == info.digest then Ok(Unit) else Err(DigestMismatch)
  }

  method VerifyTpmPcrs(sha: Sha256, message: Bytes, pcrs: seq<Bytes>) returns (r: Result<Unit, Error>)
    ensures r == Verified(sha, QuoteOf(message), pcrs)
  {
    if pcrs == [] {
      return Err(NoPcrs);
    }
    for i := 0 to |pcrs|
      invariant FirstOddSize(pcrs, 0) == FirstOddSize(pcrs, i)
    {
      if |pcrs[i]| != 32 {
        return Err(PcrSize(i, |pcrs[i]|));
      }
    }
    var parsed := ParseQuoteInfo(message);
    var quote :- parsed;
    var concat := [];
    for i := 0 to |quote.selected|
      invariant Chosen(pcrs, quote.selected[..i]) == Ok(concat)
    {
      var index := quote.selected[i];
      NextChosen(pcrs, quote.selected, i);
      if index >= |pcrs| {
        return Err(NoSuchPcr(index, |pcrs|));
      }
      concat := concat + pcrs[index];
    }
    assert quote.selected[..|quote.selected|] == quote.selected;
    if sha(concat) != quote.digest {
      return Err(DigestMismatch);
    }
    r := Ok(Unit);
  }

  lemma {:induction false} ChosenFails(pcrs: seq<Bytes>, selected: seq<nat>, i: nat)
    requires i <= |selected| && Chosen(pcrs, selected[..i]).Err?
    ensures Chosen(pcrs, selected) == Chosen(pcrs, selected[..i])
    decreases |selected|
  {
    if i == |selected| {
      assert selected[..i] == selected;
    } else {
      var n := |selected| - 1;
      assert selected[..n][..i] == selected[..i];
      ChosenFails(pcrs, selected[..n], i);
    }
  }

  lemma {:induction false} NextChosen(pcrs: seq<Bytes>, selected: seq<nat>, i: nat)
    requires i < |selected| && Chosen(pcrs, selected[..i]).Ok?
    ensures selected[i] >= |pcrs| ==> Chosen(pcrs, selected) == Err(NoSuchPcr(selected[i], |pcrs|))
    ensures selected[i] < |pcrs| ==>
      Chosen(pcrs, selected[..i + 1]) == Ok(Chosen(pcrs, selected[..i]).value + pcrs[selected[i]])
  {
    assert selected[..i + 1][..i] == selected[..i];
    if selected[i] >= |pcrs| {
      ChosenFails(pcrs, selected, i + 1);
    }
  }

  /** When the PCR array passes. */
  lemma {:induction false} VerifiedMeans(sha: Sha256, quote: Result<QuoteInfo, Error>, pcrs: seq<Bytes>)
    ensures Verified(sha, quote, pcrs).Ok?
       <==> && pcrs != [] && All32(pcrs)
            && quote.Ok?
            && (forall k :: k in quote.value.selected ==> k < |pcrs|)
            && sha(Chosen(pcrs, quote.value.selected).value) == quote.value.digest
  {}

  /** What is hashed: the selected values in the order of the selection, each 32 bytes. */
  lemma {:induction false} ChosenAt(pcrs: seq<Bytes>, selected: seq<nat>, k: nat)
    requires All32(pcrs) && k < |selected| && Chosen(pcrs, selected).Ok?
    ensures selected[k] in selected && selected[k] < |pcrs|
    ensures var chosen := Chosen(pcrs, selected).value;
      |chosen| == 32 * |selected| && chosen[32 * k..32 * k + 32] == pcrs[selected[k]]
  {
    var n := |selected| - 1;
    var chosen, before := Chosen(pcrs, selected).value, Chosen(pcrs, selected[..n]).value;
    ChosenLength(pcrs, selected[..n]);
    assert chosen == before + pcrs[selected[n]];
    if k < n {
      ChosenAt(pcrs, selected[..n], k);
      assert chosen[32 * k..32 * k + 32] == before[32 * k..32 * k + 32];
    }
  }

  lemma {:induction false} ChosenLength(pcrs: seq<Bytes>, selected: seq<nat>)
    requires All32(pcrs)
    ensures Chosen(pcrs, selected).Ok? ==> |Chosen(pcrs, selected).value| == 32 * |selected|
  {
    if selected != [] {
      ChosenLength(pcrs, selected[..|selected| - 1]);
    }
  }

  /** The `i`-th selected register is the first that the array does not reach. */
  predicate FirstMissing(pcrs: seq<Bytes>, selected: seq<nat>, i: int) {
    0 <= i < |selected| && selected[i] >= |pcrs| && forall j :: 0 <= j < i ==> selected[j] < |pcrs|
  }

  lemma {:induction false} ChosenError(pcrs: seq<Bytes>, selected: seq<nat>) returns (i: nat)
    requires Chosen(pcrs, selected).Err?
    ensures FirstMissing(pcrs, selected, i) && Chosen(pcrs, selected) == Err(NoSuchPcr(selected[i], |pcrs|))
  {
    var n := |selected| - 1;
    if Chosen(pcrs, selected[..n]).Err? {
      i := ChosenError(pcrs, selected[..n]);
      assert forall j :: 0 <= j <= i ==> selected[..n][j] == selected[j];
    } else {
      i := n;
      assert forall j :: 0 <= j < n ==> selected[..n][j] in selected[..n] && selected[..n][j] == selected[j];
    }
  }

  /** `i` is the first entry that is not 32 bytes. */
  predicate FirstOdd(pcrs: seq<Bytes>, i: int) {
    0 <= i < |pcrs| && |pcrs[i]| != 32 && forall j :: 0 <= j < i ==> |pcrs[j]| == 32
  }

  /** Why the PCR array fails, in the order the reasons are looked for. */
  lemma {:induction false} NotVerifiedMeans(sha: Sha256, quote: Result<QuoteInfo, Error>, pcrs: seq<Bytes>, e: Error)
    requires Verified(sha, quote, pcrs) == Err(e)
    ensures pcrs == [] ==> e == NoPcrs
    ensures pcrs != [] && !All32(pcrs) ==> exists i :: FirstOdd(pcrs, i) && e == PcrSize(i, |pcrs[i]|)
    ensures pcrs != [] && All32(pcrs) && quote.Err? ==> e == quote.error
    ensures pcrs != [] && All32(pcrs) && quote.Ok? ==>
      || e == DigestMismatch
      || exists i :: FirstMissing(pcrs, quote.value.selected, i) && e == NoSuchPcr(quote.value.selected[i], |pcrs|)
  {
    var odd := FirstOddSize(pcrs, 0);
    if pcrs != [] && odd.Some? {
      assert FirstOdd(pcrs, odd.value);
    } else if pcrs != [] && quote.Ok? && Chosen(pcrs, quote.value.selected).Err? {
      var i := ChosenError(pcrs, quote.value.selected);
    }
  }

  // --------------------------------------------------------------- the checks

  /** What `check_init_data` answers. */
  function InitData(sha: Sha256, quote: Result<QuoteInfo, Error>, pcrs: seq<Bytes>, expected: Option<Bytes>)
    : Result<Option<bool>, Error>
  {
    match expected
    case None => Ok(None)
    case Some(hash) =>
      if |hash| != 32 then
        Err(InitDataSize(|hash|))
      else
        var info :- quote;
        if INIT_DATA_PCR !in info.selected then Ok(Some(false))
        else if |pcrs| <= INIT_DATA_PCR then Err(TooFewPcrs(|pcrs|))
        else Ok(Some(pcrs[INIT_DATA_PCR] == sha(Zeros(32) + hash)))
  }

  /** The smallest pin from `i` on that names no PCR. */
  function BadPin(pins: map<Byte, Digest>, i: nat): Option<nat>
    requires i <= 256
    decreases 256 - i
  {
    if i == 256 then None else if i in pins && i > HIGHEST_PIN then Some(i) else BadPin(pins, i + 1)
  }

  lemma {:induction false} BadPinIsSmallest(pins: map<Byte, Digest>, i: nat)
    requires i <= 256
    ensures match BadPin(pins, i)
            case None => forall j :: i <= j < 256 && HIGHEST_PIN < j ==> j !in pins
            case Some(k) => i <= k < 256 && HIGHEST_PIN < k && k in pins && forall j :: i <= j < k && HIGHEST_PIN < j ==> j !in pins
    decreases 256 - i
  {
    if i < 256 {
      BadPinIsSmallest(pins, i + 1);
    }
  }

  lemma {:induction false} BadPinStep(pins: map<Byte, Digest>, i: nat)
    requires i < 256
    ensures BadPin(pins, i) == if i in pins && i > HIGHEST_PIN then Some(i) else BadPin(pins, i + 1)
    ensures BadPin(pins, 256) == None
  {}

  /** Whether every pinned PCR is selected and has the pinned value. */
  predicate AllMatch(selected: seq<nat>, pcrs: seq<Bytes>, pins: map<Byte, Digest>) {
    forall k :: k in pins ==> k in selected && k < |pcrs| && pcrs[k] == pins[k]
  }

  /** What `check_pcrs` answers. */
  function Pins(quote: Result<QuoteInfo, Error>, pcrs: seq<Bytes>, pins: map<Byte, Digest>): Result<Option<bool>, Error> {
    if pins == map[] then
      Ok(None)
    else
      match BadPin(pins, 0)
      case Some(i) => Err(PinOutOfRange(i))
      case None =>
        var info :- quote;
        Ok(Some(AllMatch(info.selected, pcrs, pins)))
  }

  /** Pins are looked at in the order of their indices. */
  method CheckPcrs(message: Bytes, pcrs: seq<Bytes>, pins: map<Byte, Digest>) returns (r: Result<Option<bool>, Error>)
    ensures r == Pins(QuoteOf(message), pcrs, pins)
  {
    hide QuoteOf, AllMatch;
    if pins == map[] {
      return Ok(None);
    }
    var bad := CheckPinIndexes(pins);
    if bad.Some? {
      return Err(PinOutOfRange(bad.value));
    }
    var parsed := ParseQuoteInfo(message);
    var quote :- parsed;
    var allMatch := MatchPins(quote.selected, pcrs, pins);
    r := Ok(Some(allMatch));
  }

  method CheckPinIndexes(pins: map<Byte, Digest>) returns (bad: Option<nat>)
    ensures bad == BadPin(pins, 0)
    // The smallest index above those a pin may name, if there is one.
    ensures bad.None? ==> forall j :: j in pins ==> j <= HIGHEST_PIN
    ensures bad.Some? ==> bad.value > HIGHEST_PIN && bad.value in pins && forall j :: HIGHEST_PIN < j && j in pins ==> bad.value <= j
  {
    hide BadPin;
    BadPinIsSmallest(pins, 0);
    for i := 0 to 256
      invariant BadPin(pins, 0) == BadPin(pins, i)
    {
      BadPinStep(pins, i);
      if i in pins && i > HIGHEST_PIN {
        return Some(i);
      }
    }
    BadPinStep(pins, 0);
    bad := None;
  }

  method MatchPins(selected: seq<nat>, pcrs: seq<Bytes>, pins: map<Byte, Digest>) returns (allMatch: bool)
    ensures allMatch == AllMatch(selected, pcrs, pins)
  {
    allMatch := true;
    for i := 0 to 256
      invariant allMatch <==> forall k :: k in pins && k < i ==> k in selected && k < |pcrs| && pcrs[k] == pins[k]
    {
      if i in pins {
        if i !in selected {
          allMatch := false;
        } else {
          allMatch := allMatch && i < |pcrs| && pcrs[i] == pins[i];
        }
      }
    }
  }

  // ------------------------------------------- the verdict is about the quote

  predicate Collides(sha: Sha256, x: Bytes, y: Bytes) {
    x != y && sha(x) == sha(y)
  }

  predicate SameAt(pcrs: seq<Bytes>, pcrs': seq<Bytes>, selected: seq<nat>) {
    forall k :: k in selected ==> k < |pcrs| && k < |pcrs'| && pcrs[k] == pcrs'[k]
  }

  lemma {:induction false} ChosenPinsEach(pcrs: seq<Bytes>, pcrs': seq<Bytes>, selected: seq<nat>)
    requires All32(pcrs) && All32(pcrs')
    requires Chosen(pcrs, selected).Ok? && Chosen(pcrs', selected) == Chosen(pcrs, selected)
    ensures SameAt(pcrs, pcrs', selected)
  {
    if selected != [] {
      var n := |selected| - 1;
      var last := selected[n];
      assert selected == selected[..n] + [last];
      ConcatSplitAtEnd(Chosen(pcrs, selected[..n]).value, pcrs[last], Chosen(pcrs', selected[..n]).value, pcrs'[last]);
      ChosenPinsEach(pcrs, pcrs', selected[..n]);
    }
  }

  lemma {:induction false} ConcatSplitAtEnd(a: Bytes, b: Bytes, c: Bytes, d: Bytes)
    requires |b| == |d| && a + b == c + d
    ensures a == c && b == d
  {
    assert |a + b| == |a| + |b|;
    ConcatSplit(a, b, c, d);
  }

  /** Two arrays that pass for one quote agree on every selected PCR, or SHA-256 collides on what was hashed. */
  lemma {:induction false} SelectedPcrsAreBound(sha: Sha256, quote: Result<QuoteInfo, Error>, pcrs: seq<Bytes>, pcrs': seq<Bytes>)
    requires Verified(sha, quote, pcrs).Ok? && Verified(sha, quote, pcrs').Ok?
    ensures quote.Ok?
    ensures var selected := quote.value.selected;
      && Chosen(pcrs, selected).Ok? && Chosen(pcrs', selected).Ok?
      && (SameAt(pcrs, pcrs', selected) || Collides(sha, Chosen(pcrs, selected).value, Chosen(pcrs', selected).value))
  {
    VerifiedMeans(sha, quote, pcrs);
    VerifiedMeans(sha, quote, pcrs');
    var selected := quote.value.selected;
    if Chosen(pcrs, selected) == Chosen(pcrs', selected) {
      ChosenPinsEach(pcrs, pcrs', selected);
    }
  }

  /** The verdict on pins and on init data depends on nothing the quote does not sign, or SHA-256 collides. */
  lemma {:induction false} VerdictsAreBound(sha: Sha256, quote: Result<QuoteInfo, Error>, pcrs: seq<Bytes>, pcrs': seq<Bytes>,
                                            pins: map<Byte, Digest>, expected: Option<Bytes>)
    requires Verified(sha, quote, pcrs).Ok? && Verified(sha, quote, pcrs').Ok?
    ensures quote.Ok?
    ensures var selected := quote.value.selected;
      && Chosen(pcrs, selected).Ok? && Chosen(pcrs', selected).Ok?
      && (|| (Pins(quote, pcrs, pins) == Pins(quote, pcrs', pins)
              && InitData(sha, quote, pcrs, expected) == InitData(sha, quote, pcrs', expected))
          || Collides(sha, Chosen(pcrs, selected).value, Chosen(pcrs', selected).value))
  {
    SelectedPcrsAreBound(sha, quote, pcrs, pcrs');
  }

  /** With the PCRs verified, the init-data check never finds too few of them. */
  lemma {:induction false} TooFewIsUnreachable(sha: Sha256, quote: Result<QuoteInfo, Error>, pcrs: seq<Bytes>, expected: Option<Bytes>)
    requires Verified(sha, quote, pcrs).Ok?
    ensures InitData(sha, quote, pcrs, expected).Err? <==> expected.Some? && |expected.value| != 32
  {
    VerifiedMeans(sha, quote, pcrs);
  }

  /** One quote confirms one init-data hash only, whatever arrays come with it, or SHA-256 collides. */
  lemma {:induction false} InitDataIsBound(sha: Sha256, quote: Result<QuoteInfo, Error>, pcrs: seq<Bytes>, pcrs': seq<Bytes>,
                                           hash: Bytes, hash': Bytes)
    requires Verified(sha, quote, pcrs).Ok? && Verified(sha, quote, pcrs').Ok?
    requires InitData(sha, quote, pcrs, Some(hash)) == Ok(Some(true)) && InitData(sha, quote, pcrs', Some(hash')) == Ok(Some(true))
    ensures quote.Ok?
    ensures var selected := quote.value.selected;
      && Chosen(pcrs, selected).Ok? && Chosen(pcrs', selected).Ok?
      && (|| hash == hash'
          || Collides(sha, Zeros(32) + hash, Zeros(32) + hash')
          || Collides(sha, Chosen(pcrs, selected).value, Chosen(pcrs', selected).value))
  {
    SelectedPcrsAreBound(sha, quote, pcrs, pcrs');
    if Zeros(32) + hash == Zeros(32) + hash' {
      ConcatSplit(Zeros(32), hash, Zeros(32), hash');
    }
  }

  /**
   A TPM register that was extended by `events`, in order, since it was reset.
   TPM 2.0 Library Part 1, section 11.4.7: the new value is the hash of the old
   one followed by the digest.
   */
  function PcrAfter(sha: Sha256, events: seq<Bytes>): Digest {
    if events == [] then Zeros(32) else sha(PcrAfter(sha, events[..|events| - 1]) + events[|events| - 1])
  }

  /**
   The answers about init data. It is confirmed when the quote signs PCR 8 and its
   value is that of a register extended by the hash and nothing else; not when the
   quote does not sign PCR 8, whatever the array says.
   */
  lemma {:induction false} InitDataMeans(sha: Sha256, quote: Result<QuoteInfo, Error>, pcrs: seq<Bytes>, expected: Option<Bytes>)
    ensures var answer := InitData(sha, quote, pcrs, expected);
      && (answer == Ok(None) <==> expected == None)
      && (expected.Some? && |expected.value| != 32 ==> answer == Err(InitDataSize(|expected.value|)))
      && (expected.Some? && |expected.value| == 32 ==>
            && (quote.Err? ==> answer == Err(quote.error))
            && (quote.Ok? && 8 !in quote.value.selected ==> answer == Ok(Some(false)))
            && (quote.Ok? && 8 in quote.value.selected ==>
                  if |pcrs| <= 8 then answer == Err(TooFewPcrs(|pcrs|))
                  else answer == Ok(Some(pcrs[8] == PcrAfter(sha, [expected.value])))))
  {
    assert PcrAfter(sha, []) == Zeros(32);
    if expected.Some? {
      assert [expected.value][..0] == [];
    }
  }

  /** Two pin maps confirmed for one quote agree on every register they share, whatever arrays came along, or SHA-256 collides. */
  lemma {:induction false} PinsAreBound(sha: Sha256, quote: Result<QuoteInfo, Error>, pcrs: seq<Bytes>, pcrs': seq<Bytes>,
                                        pins: map<Byte, Digest>, pins': map<Byte, Digest>)
    requires Verified(sha, quote, pcrs).Ok? && Verified(sha, quote, pcrs').Ok?
    requires Pins(quote, pcrs, pins) == Ok(Some(true)) && Pins(quote, pcrs', pins') == Ok(Some(true))
    ensures quote.Ok?
    ensures var selected := quote.value.selected;
      && Chosen(pcrs, selected).Ok? && Chosen(pcrs', selected).Ok?
      && (|| (forall k :: k in pins && k in pins' ==> pins[k] == pins'[k])
          || Collides(sha, Chosen(pcrs, selected).value, Chosen(pcrs', selected).value))
  {
    SelectedPcrsAreBound(sha, quote, pcrs, pcrs');
  }

  /**
   The answers about pins, beside an array that passes: no answer without pins, the
   smallest pin above 23 if there is one, and else whether each pin names a
   selected register and its very value.
   */
  lemma {:induction false} PinsMean(sha: Sha256, quote: Result<QuoteInfo, Error>, pcrs: seq<Bytes>, pins: map<Byte, Digest>)
    requires Verified(sha, quote, pcrs).Ok?
    ensures quote.Ok? && forall k :: k in quote.value.selected ==> k < |pcrs|
    ensures var answer := Pins(quote, pcrs, pins);
      && (answer == Ok(None) <==> pins == map[])
      && (answer == Ok(Some(true)) <==>
            pins != map[] && forall k :: k in pins ==> k <= 23 && k in quote.value.selected && pcrs[k] == pins[k])
      && (answer.Err? <==> exists k :: k in pins && k > 23)
      && (answer.Err? ==>
            && answer.error.PinOutOfRange? && answer.error.index in pins && answer.error.index > 23
            && forall k :: k in pins && k > 23 ==> answer.error.index <= k)
  {
    VerifiedMeans(sha, quote, pcrs);
    BadPinIsSmallest(pins, 0);
  }

  /**
   An entry outside the selection is anything the attester likes: replacing it
   changes neither the PCR check nor a verdict.
   */
  lemma {:induction false} UnselectedEntriesAreFree(sha: Sha256, quote: Result<QuoteInfo, Error>, pcrs: seq<Bytes>, i: nat, other: Bytes,
                                                    pins: map<Byte, Digest>, expected: Option<Bytes>)
    requires Verified(sha, quote, pcrs).Ok? && i < |pcrs| && |other| == 32
    requires quote.Ok? && i !in quote.value.selected
    ensures Verified(sha, quote, pcrs[i := other]).Ok?
    ensures Pins(quote, pcrs[i := other], pins) == Pins(quote, pcrs, pins)
    ensures InitData(sha, quote, pcrs[i := other], expected) == InitData(sha, quote, pcrs, expected)
  {
    VerifiedMeans(sha, quote, pcrs);
    ChosenIgnores(pcrs, i, other, quote.value.selected);
    VerifiedMeans(sha, quote, pcrs[i := other]);
  }

  lemma {:induction false} ChosenIgnores(pcrs: seq<Bytes>, i: nat, other: Bytes, selected: seq<nat>)
    requires i < |pcrs| && i !in selected
    ensures Chosen(pcrs[i := other], selected) == Chosen(pcrs, selected)
  {
    if selected != [] {
      ChosenIgnores(pcrs, i, other, selected[..|selected| - 1]);
    }
  }

  /** A pin outside the selection is never confirmed, whatever the array says. */
  lemma {:induction false} UnselectedPinsAreNotConfirmed(quote: Result<QuoteInfo, Error>, pcrs: seq<Bytes>, pins: map<Byte, Digest>, k: Byte)
    requires k in pins && quote.Ok? && k !in quote.value.selected
    ensures Pins(quote, pcrs, pins) != Ok(Some(true)) && Pins(quote, pcrs, pins) != Ok(None)
  {}
}
