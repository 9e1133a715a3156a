/**
 Kernel measurement registers: 16 SHA-384 registers, a log of extends, and the
 commitment to both that the guest kernel writes into REPORT_DATA.

 SHA-384 is a parameter of every definition: any function from bytes to 48
 bytes. Nothing is assumed about it, so the binding results end in "equal, or
 here are two inputs on which this function collides".
 */
module MeasurementRegisters {
  import opened Prelude

  const REGISTER_COUNT := 16
  const ENTRY_LEN := 49

  type Register = r: Bytes | |r| == 48 witness Zeros(48)
  type Registers = rs: seq<Register> | |rs| == REGISTER_COUNT witness ZeroRegisters()
  type Sha384 = Bytes -> Register
  type CallerData = d: Bytes | |d| == 64 witness Zeros(64)
  type ReportData = d: Bytes | |d| == 64 witness Zeros(64)

  const ZERO_REGISTER: Register := Zeros(48)

  function ZeroRegisters(): (rs: seq<Register>)
    ensures |rs| == REGISTER_COUNT && forall i :: 0 <= i < REGISTER_COUNT ==> rs[i] == ZERO_REGISTER
  {
    seq(REGISTER_COUNT, _ => ZERO_REGISTER)
  }

  /** "snp-kmr-v1" */
  const TAG: Bytes := [115, 110, 112, 45, 107, 109, 114, 45, 118, 49]

  datatype LogError = NotWholeEntries(length: nat) | IndexAbove15(index: Byte)

  datatype Committed = Committed(eventCount: U32, registers: Registers)

  // ---------------------------------------------------------------- the log

  predicate WellFormed(log: Bytes) {
    && |log| % ENTRY_LEN == 0
    && forall k :: 0 <= k < |log| / ENTRY_LEN ==> IndexAt(log, k) < REGISTER_COUNT
  }

  function IndexAt(log: Bytes, k: nat): Byte
    requires k < |log| / ENTRY_LEN
  {
    log[ENTRY_LEN * k]
  }

  function DigestAt(log: Bytes, k: nat): Register
    requires k < |log| / ENTRY_LEN
  {
    log[ENTRY_LEN * k + 1..ENTRY_LEN * k + ENTRY_LEN]
  }

  /** The first entry from `k` on that names no register, if any. */
  function FirstBad(log: Bytes, k: nat): (bad: Option<nat>)
    requires |log| % ENTRY_LEN == 0 && k <= |log| / ENTRY_LEN
    ensures bad.Some? ==> k <= bad.value < |log| / ENTRY_LEN && IndexAt(log, bad.value) >= REGISTER_COUNT
    ensures bad.Some? ==> forall j :: k <= j < bad.value ==> IndexAt(log, j) < REGISTER_COUNT
    ensures bad.None? ==> forall j :: k <= j < |log| / ENTRY_LEN ==> IndexAt(log, j) < REGISTER_COUNT
    decreases |log| / ENTRY_LEN - k
  {
    if k == |log| / ENTRY_LEN then None
    else if IndexAt(log, k) >= REGISTER_COUNT then Some(k)
    else FirstBad(log, k + 1)
  }

  function Extended(sha: Sha384, r: Register, digest: Bytes): Register {
    sha(r + digest)
  }

  /** The registers after the first `n` entries of `log`, starting from `start`. */
  function ReplayFrom(sha: Sha384, start: Registers, log: Bytes, n: nat): Registers
    requires WellFormed(log) && n <= |log| / ENTRY_LEN
  {
    if n == 0 then start
    else
      var before := ReplayFrom(sha, start, log, n - 1);
      var i := IndexAt(log, n - 1);
      before[i := Extended(sha, before[i], DigestAt(log, n - 1))]
  }

  /** What `replay` answers. */
  function Replayed(sha: Sha384, log: Bytes, eventCount: U32): Result<Option<Registers>, LogError> {
    if |log| % ENTRY_LEN != 0 then Err(NotWholeEntries(|log|))
    else if FirstBad(log, 0).Some? then Err(IndexAbove15(IndexAt(log, FirstBad(log, 0).value)))
    else if |log| / ENTRY_LEN < eventCount then Ok(None)
    else Ok(Some(ReplayFrom(sha, ZeroRegisters(), log, eventCount)))
  }

  // ----------------------------------------------------------- the commitment

  function FromLe32(b: Bytes): U32
    requires |b| == 4
  {
    SmallPowers();
    FromLittleEndianRoundTrip(b);
    FromLittleEndian(b)
  }

  function Header(eventCount: U32): (h: Bytes)
    ensures |h| == 16
  {
    LittleEndian(eventCount, 4) + Zeros(12)
  }

  function Concat(rs: seq<Register>): (b: Bytes)
    ensures |b| == 48 * |rs|
  {
    if rs == [] then [] else Concat(rs[..|rs| - 1]) + rs[|rs| - 1]
  }

  /** What the commitment hashes. */
  function Preimage(eventCount: U32, registers: Registers, callerData: CallerData): Bytes {
    TAG + Header(eventCount) + Concat(registers) + callerData
  }

  function ReportDataOf(sha: Sha384, eventCount: U32, registers: Registers, callerData: CallerData): (r: ReportData) {
    Header(eventCount) + sha(Preimage(eventCount, registers, callerData))
  }

  /** What `verify` answers. */
  function Verified(sha: Sha384, reported: ReportData, log: Bytes, callerData: CallerData)
    : Result<Option<Committed>, LogError>
  {
    var eventCount := FromLe32(reported[..4]);
    match Replayed(sha, log, eventCount)
    case Err(e) => Err(e)
    case Ok(None) => Ok(None)
    case Ok(Some(registers)) =>
      if reported == ReportDataOf(sha, eventCount, registers, callerData)
      then Ok(Some(Committed(eventCount, registers)))
      else Ok(None)
  }

  // ------------------------------------------------------- the code, in place

  /** Overwrites one register with its extension by `digest`. */
  method Extend(sha: Sha384, registers: array<Register>, i: nat, digest: Bytes)
    requires i < registers.Length
    modifies registers
    ensures registers[..] == old(registers[..])[i := sha(old(registers[i]) + digest)]
  {
    registers[i] := sha(registers[i] + digest);
  }

  method Replay(sha: Sha384, log: Bytes, eventCount: U32) returns (r: Result<Option<Registers>, LogError>)
    ensures r == Replayed(sha, log, eventCount)
  {
    if |log| % ENTRY_LEN != 0 {
      return Err(NotWholeEntries(|log|));
    }
    var entries := |log| / ENTRY_LEN;
    var k := 0;
    while k < entries
      invariant k <= entries
      invariant FirstBad(log, 0) == FirstBad(log, k)
    {
      if log[ENTRY_LEN * k] >= REGISTER_COUNT {
        return Err(IndexAbove15(log[ENTRY_LEN * k]));
      }
      k := k + 1;
    }
    if entries < eventCount {
      return Ok(None);
    }
    var registers := new Register[REGISTER_COUNT](_ => ZERO_REGISTER);
    assert registers[..] == ZeroRegisters();
    for e := 0 to eventCount
      invariant fresh(registers)
      invariant registers[..] == ReplayFrom(sha, ZeroRegisters(), log, e)
    {
      assert IndexAt(log, e) < REGISTER_COUNT;
      Extend(sha, registers, log[ENTRY_LEN * e], log[ENTRY_LEN * e + 1..ENTRY_LEN * e + ENTRY_LEN]);
    }
    r := Ok(Some(registers[..]));
  }

  method ReportDataFor(sha: Sha384, eventCount: U32, registers: Registers, callerData: CallerData) returns (out: ReportData)
    ensures out == ReportDataOf(sha, eventCount, registers, callerData)
  {
    var h := Header(eventCount);
    var c := TAG + h;
    for i := 0 to REGISTER_COUNT
      invariant c == TAG + h + Concat(registers[..i])
    {
      assert registers[..i + 1][..i] == registers[..i];
      c := c + registers[i];
    }
    assert registers[..REGISTER_COUNT] == registers;
    c := c + callerData;
    out := h + sha(c);
  }

  method Verify(sha: Sha384, reported: ReportData, log: Bytes, callerData: CallerData)
    returns (r: Result<Option<Committed>, LogError>)
    ensures r == Verified(sha, reported, log, callerData)
  {
    var eventCount := FromLe32(reported[..4]);
    var replayed := Replay(sha, log, eventCount);
    match replayed {
      case Err(e) => r := Err(e);
      case Ok(None) => r := Ok(None);
      case Ok(Some(registers)) =>
        var expected := ReportDataFor(sha, eventCount, registers, callerData);
        r := Ok(if reported == expected then Some(Committed(eventCount, registers)) else None);
    }
  }

  // ---------------------------------------------------------- what replay means

  lemma {:induction false} ConcatAt(rs: seq<Register>, k: nat)
    requires k < |rs|
    ensures Concat(rs)[48 * k..48 * k + 48] == rs[k]
  {
    var n := |rs| - 1;
    var before: Bytes := Concat(rs[..n]);
    assert Concat(rs) == before + rs[n];
    if k < n {
      ConcatAt(rs[..n], k);
      assert Concat(rs)[48 * k..48 * k + 48] == before[48 * k..48 * k + 48];
    }
  }

  lemma {:induction false} HeaderBytes(eventCount: U32)
    ensures var h := Header(eventCount);
      && h[0] as int + 0x100 * h[1] as int + 0x1_0000 * h[2] as int + 0x100_0000 * h[3] as int == eventCount
      && forall i :: 4 <= i < 16 ==> h[i] == 0
  {
    var low := LittleEndian(eventCount, 4);
    SmallPowers();
    LittleEndianRoundTrip(eventCount, 4);
    assert FromLittleEndian(low) == low[0] as int + 256 * FromLittleEndian(low[1..]);
    assert FromLittleEndian(low[1..]) == low[1] as int + 256 * FromLittleEndian(low[1..][1..]);
    assert FromLittleEndian(low[1..][1..]) == low[2] as int + 256 * FromLittleEndian(low[1..][1..][1..]);
    assert FromLittleEndian(low[1..][1..][1..]) == low[3] as int;
  }

  /** `hashed` is the tag "snp-kmr-v1", the header, the registers one after the other, and the caller's data. */
  predicate Commits(hashed: Bytes, header: Bytes, registers: Registers, callerData: CallerData) {
    && |hashed| == 858
    && (forall i :: 0 <= i < 10 ==> hashed[i] as char == "snp-kmr-v1"[i])
    && hashed[10..26] == header && hashed[794..] == callerData
    && forall i :: 0 <= i < 16 ==> hashed[26 + 48 * i..26 + 48 * i + 48] == registers[i]
  }

  /** The report data: the event count, its low byte first, twelve zeros, and the hash of the commitment. */
  lemma {:induction false} ReportLayout(sha: Sha384, eventCount: U32, registers: Registers, callerData: CallerData)
    returns (hashed: Bytes)
    ensures var r := ReportDataOf(sha, eventCount, registers, callerData);
      && r[0] as int + 0x100 * r[1] as int + 0x1_0000 * r[2] as int + 0x100_0000 * r[3] as int == eventCount
      && (forall i :: 4 <= i < 16 ==> r[i] == 0)
      && r[16..] == sha(hashed) && Commits(hashed, r[..16], registers, callerData)
  {
    hide Concat, Header, Zeros;
    HeaderBytes(eventCount);
    hashed := Preimage(eventCount, registers, callerData);
    var all: Bytes := Concat(registers);
    assert hashed == TAG + Header(eventCount) + all + callerData;
    assert hashed[26..794] == all;
    forall i | 0 <= i < 16 ensures hashed[26 + 48 * i..26 + 48 * i + 48] == registers[i] {
      ConcatAt(registers, i);
      assert hashed[26 + 48 * i..26 + 48 * i + 48] == hashed[26..794][48 * i..48 * i + 48];
    }
  }

  /** The `k`-th entry is the first that names no register. */
  predicate FirstBadEntry(log: Bytes, k: int) {
    0 <= k < |log| / ENTRY_LEN && IndexAt(log, k) > 15 && forall j :: 0 <= j < k ==> IndexAt(log, j) <= 15
  }

  /** A log is refused, or too short, for reasons the event count does not hide. */
  lemma {:induction false} ReplayOutcome(sha: Sha384, log: Bytes, eventCount: U32)
    ensures Replayed(sha, log, eventCount).Err? <==> !WellFormed(log)
    ensures Replayed(sha, log, eventCount) == Ok(None) <==> WellFormed(log) && |log| / ENTRY_LEN < eventCount
    // Refused for a length that is not whole entries, or else for the first index above 15.
    ensures |log| % 49 != 0 ==> Replayed(sha, log, eventCount) == Err(NotWholeEntries(|log|))
    ensures |log| % 49 == 0 && !WellFormed(log) ==>
      exists k :: FirstBadEntry(log, k) && Replayed(sha, log, eventCount) == Err(IndexAbove15(log[49 * k]))
    ensures WellFormed(log) && eventCount <= |log| / 49 ==>
      Replayed(sha, log, eventCount) == Ok(Some(ReplayFrom(sha, ZeroRegisters(), log, eventCount)))
  {
    if |log| % ENTRY_LEN == 0 {
      var bad := FirstBad(log, 0);
      if bad.Some? {
        assert !(IndexAt(log, bad.value) < REGISTER_COUNT);
        assert FirstBadEntry(log, bad.value);
      }
    }
  }

  lemma {:induction false} SuffixWellFormed(log: Bytes, n: nat)
    requires WellFormed(log) && n <= |log| / ENTRY_LEN
    ensures WellFormed(log[ENTRY_LEN * n..])
    ensures |log[ENTRY_LEN * n..]| / ENTRY_LEN == |log| / ENTRY_LEN - n
    ensures forall k :: 0 <= k < |log| / ENTRY_LEN - n ==>
      && IndexAt(log[ENTRY_LEN * n..], k) == IndexAt(log, n + k)
      && DigestAt(log[ENTRY_LEN * n..], k) == DigestAt(log, n + k)
  {
    var rest := log[ENTRY_LEN * n..];
    forall k | 0 <= k < |log| / ENTRY_LEN - n
      ensures IndexAt(rest, k) == IndexAt(log, n + k) && DigestAt(rest, k) == DigestAt(log, n + k)
    {
      assert ENTRY_LEN * n + ENTRY_LEN * k == ENTRY_LEN * (n + k);
    }
  }

  /**
   What one entry does: the register it names becomes the hash of its value followed
   by the entry's digest, and no other register changes.
   */
  lemma {:induction false} EntryExtends(sha: Sha384, start: Registers, log: Bytes, n: nat)
    requires WellFormed(log) && n < |log| / ENTRY_LEN
    ensures var (before, after) := (ReplayFrom(sha, start, log, n), ReplayFrom(sha, start, log, n + 1));
      var i := log[49 * n];
      && i < 16
      && after[i] == sha(before[i] + log[49 * n + 1..49 * n + 49])
      && forall j :: 0 <= j < 16 && j != i ==> after[j] == before[j]
    ensures ReplayFrom(sha, start, log, 0) == start
  {
    assert IndexAt(log, n) < REGISTER_COUNT;
  }

  /** Replaying n + m entries is replaying n and going on with the rest of the log. */
  lemma {:induction false} ReplayContinues(sha: Sha384, start: Registers, log: Bytes, n: nat, m: nat)
    requires WellFormed(log) && n + m <= |log| / ENTRY_LEN
    ensures WellFormed(log[ENTRY_LEN * n..]) && m <= |log[ENTRY_LEN * n..]| / ENTRY_LEN
    ensures ReplayFrom(sha, start, log, n + m)
         == ReplayFrom(sha, ReplayFrom(sha, start, log, n), log[ENTRY_LEN * n..], m)
  {
    SuffixWellFormed(log, n);
    if m > 0 {
      ReplayContinues(sha, start, log, n, m - 1);
    }
  }

  lemma {:induction false} ReplayReadsOnlyItsPrefix(sha: Sha384, start: Registers, log: Bytes, more: Bytes, n: nat)
    requires WellFormed(log) && WellFormed(log + more) && n <= |log| / ENTRY_LEN
    requires n <= |log + more| / ENTRY_LEN
    ensures ReplayFrom(sha, start, log + more, n) == ReplayFrom(sha, start, log, n)
  {
    if n > 0 {
      ReplayReadsOnlyItsPrefix(sha, start, log, more, n - 1);
      assert DigestAt(log + more, n - 1) == DigestAt(log, n - 1);
    }
  }

  lemma {:induction false} ConcatWellFormed(log: Bytes, more: Bytes)
    requires WellFormed(log) && WellFormed(more)
    ensures WellFormed(log + more)
    ensures |log + more| / ENTRY_LEN == |log| / ENTRY_LEN + |more| / ENTRY_LEN
  {
    var both := log + more;
    var n := |log| / ENTRY_LEN;
    forall k | 0 <= k < |both| / ENTRY_LEN
      ensures IndexAt(both, k) < REGISTER_COUNT
    {
      if k < n {
        assert IndexAt(both, k) == IndexAt(log, k);
      } else {
        assert ENTRY_LEN * k == |log| + ENTRY_LEN * (k - n);
        assert IndexAt(both, k) == IndexAt(more, k - n);
      }
    }
  }

  /** Events logged after the report was made never change an accepted verdict. */
  lemma {:induction false} LaterEventsKeepTheVerdict(sha: Sha384, reported: ReportData, log: Bytes, more: Bytes,
                                                     callerData: CallerData)
    requires WellFormed(more)
    requires var v := Verified(sha, reported, log, callerData); v.Ok? && v.value.Some?
    ensures Verified(sha, reported, log + more, callerData) == Verified(sha, reported, log, callerData)
  {
    var n := FromLe32(reported[..4]);
    ReplayOutcome(sha, log, n);
    ConcatWellFormed(log, more);
    ReplayOutcome(sha, log + more, n);
    ReplayReadsOnlyItsPrefix(sha, ZeroRegisters(), log, more, n);
  }

  /** A report made over a replayed log is accepted, for every log and count. */
  lemma {:induction false} HonestReportsAreAccepted(sha: Sha384, log: Bytes, eventCount: U32, callerData: CallerData)
    requires WellFormed(log) && eventCount <= |log| / ENTRY_LEN
    ensures var registers := ReplayFrom(sha, ZeroRegisters(), log, eventCount);
      Verified(sha, ReportDataOf(sha, eventCount, registers, callerData), log, callerData)
        == Ok(Some(Committed(eventCount, registers)))
  {
    var registers := ReplayFrom(sha, ZeroRegisters(), log, eventCount);
    var reported := ReportDataOf(sha, eventCount, registers, callerData);
    assert reported[..4] == LittleEndian(eventCount, 4);
    SmallPowers();
    LittleEndianRoundTrip(eventCount, 4);
    ReplayOutcome(sha, log, eventCount);
  }

  // -------------------------------------------------------- binding of the log

  /** The digests the first `n` entries extend register `i` with, in order. */
  function DigestsOf(log: Bytes, n: nat, i: nat): seq<Register>
    requires n <= |log| / ENTRY_LEN
  {
    if n == 0 then []
    else DigestsOf(log, n - 1, i) + if IndexAt(log, n - 1) == i then [DigestAt(log, n - 1)] else []
  }

  /** A register extended from zero by `digests`. */
  function Chain(sha: Sha384, digests: seq<Register>): Register {
    if digests == [] then ZERO_REGISTER
    else Extended(sha, Chain(sha, digests[..|digests| - 1]), digests[|digests| - 1])
  }

  /** Each register depends on its own digests only. */
  lemma {:induction false} RegisterIsItsChain(sha: Sha384, log: Bytes, n: nat, i: nat)
    requires WellFormed(log) && n <= |log| / ENTRY_LEN && i < REGISTER_COUNT
    ensures ReplayFrom(sha, ZeroRegisters(), log, n)[i] == Chain(sha, DigestsOf(log, n, i))
  {
    if n > 0 {
      RegisterIsItsChain(sha, log, n - 1, i);
      var before := DigestsOf(log, n - 1, i);
      var all := DigestsOf(log, n, i);
      if IndexAt(log, n - 1) == i {
        assert all[..|all| - 1] == before;
      } else {
        assert all == before;
      }
    }
  }

  /** Evidence against the hash: two colliding inputs, or an input that hashes to the zero register. */
  datatype Clash = Collision(x: Bytes, y: Bytes) | ZeroPreimage(x: Bytes)

  predicate Breaks(sha: Sha384, clash: Clash) {
    match clash
    case Collision(x, y) => x != y && sha(x) == sha(y)
    case ZeroPreimage(x) => sha(x) == ZERO_REGISTER
  }

  /** Two digest sequences that end in the same register are the same, or show a clash. */
  function ChainClash(sha: Sha384, xs: seq<Register>, ys: seq<Register>): (clash: Option<Clash>)
    requires Chain(sha, xs) == Chain(sha, ys)
    ensures clash.None? <==> xs == ys
    ensures clash.Some? ==> Breaks(sha, clash.value)
    decreases |xs|
  {
    if xs == [] && ys == [] then None
    else if xs == [] then
      Some(ZeroPreimage(Chain(sha, ys[..|ys| - 1]) + ys[|ys| - 1]))
    else if ys == [] then
      Some(ZeroPreimage(Chain(sha, xs[..|xs| - 1]) + xs[|xs| - 1]))
    else
      var x: Bytes := Chain(sha, xs[..|xs| - 1]);
      var y: Bytes := Chain(sha, ys[..|ys| - 1]);
      var d: Bytes := xs[|xs| - 1];
      var e: Bytes := ys[|ys| - 1];
      if x + d != y + e then Some(Collision(x + d, y + e))
      else
        ConcatSplit(x, d, y, e);
        assert xs == xs[..|xs| - 1] + [d] && ys == ys[..|ys| - 1] + [e];
        ChainClash(sha, xs[..|xs| - 1], ys[..|ys| - 1])
  }

  /** Two logs extend each register below `i` with the same digests in the same order. */
  predicate SameSequences(log: Bytes, log': Bytes, n: nat, i: nat)
    requires n <= |log| / ENTRY_LEN && n <= |log'| / ENTRY_LEN
  {
    forall j :: 0 <= j < i ==> DigestsOf(log, n, j) == DigestsOf(log', n, j)
  }

  lemma {:induction false} OneMoreSequence(log: Bytes, log': Bytes, n: nat, i: nat)
    requires n <= |log| / ENTRY_LEN && n <= |log'| / ENTRY_LEN
    ensures SameSequences(log, log', n, i + 1) <==>
      SameSequences(log, log', n, i) && DigestsOf(log, n, i) == DigestsOf(log', n, i)
  {}

  /** Two logs leave each register below `i` with the same value. */
  predicate SameChains(sha: Sha384, log: Bytes, log': Bytes, n: nat, i: nat)
    requires n <= |log| / ENTRY_LEN && n <= |log'| / ENTRY_LEN
  {
    forall j :: 0 <= j < i ==> Chain(sha, DigestsOf(log, n, j)) == Chain(sha, DigestsOf(log', n, j))
  }

  lemma {:induction false} SameRegistersSameChains(sha: Sha384, log: Bytes, log': Bytes, n: nat)
    requires WellFormed(log) && WellFormed(log') && n <= |log| / ENTRY_LEN && n <= |log'| / ENTRY_LEN
    ensures SameChains(sha, log, log', n, REGISTER_COUNT)
       <==> ReplayFrom(sha, ZeroRegisters(), log, n) == ReplayFrom(sha, ZeroRegisters(), log', n)
  {
    forall i | 0 <= i < REGISTER_COUNT
      ensures ReplayFrom(sha, ZeroRegisters(), log, n)[i] == Chain(sha, DigestsOf(log, n, i))
      ensures ReplayFrom(sha, ZeroRegisters(), log', n)[i] == Chain(sha, DigestsOf(log', n, i))
    {
      RegisterIsItsChain(sha, log, n, i);
      RegisterIsItsChain(sha, log', n, i);
    }
  }

  /** The same for the registers below `i` of two logs. */
  function RegistersClash(sha: Sha384, log: Bytes, log': Bytes, n: nat, i: nat): (clash: Option<Clash>)
    requires n <= |log| / ENTRY_LEN && n <= |log'| / ENTRY_LEN
    requires SameChains(sha, log, log', n, i)
    ensures clash.None? <==> SameSequences(log, log', n, i)
    ensures clash.Some? ==> Breaks(sha, clash.value)
  {
    if i == 0 then None
    else
      OneMoreSequence(log, log', n, i - 1);
      var here := ChainClash(sha, DigestsOf(log, n, i - 1), DigestsOf(log', n, i - 1));
      if here.Some? then here else RegistersClash(sha, log, log', n, i - 1)
  }

  lemma {:induction false} ConcatInjective(rs: seq<Register>, ss: seq<Register>)
    requires |rs| == |ss| && Concat(rs) == Concat(ss)
    ensures rs == ss
  {
    if rs != [] {
      var n := |rs| - 1;
      ConcatSplit(Concat(rs[..n]), rs[n], Concat(ss[..n]), ss[n]);
      ConcatInjective(rs[..n], ss[..n]);
      assert rs == rs[..n] + [rs[n]] && ss == ss[..n] + [ss[n]];
    }
  }

  lemma {:induction false} PreimageInjective(n: U32, rs: Registers, d: CallerData, rs': Registers, d': CallerData)
    requires Preimage(n, rs, d) == Preimage(n, rs', d')
    ensures rs == rs' && d == d'
  {
    ConcatSplit(TAG + Header(n) + Concat(rs), d, TAG + Header(n) + Concat(rs'), d');
    ConcatSplit(TAG + Header(n), Concat(rs), TAG + Header(n), Concat(rs'));
    ConcatInjective(rs, rs');
  }

  predicate Accepts(sha: Sha384, reported: ReportData, log: Bytes, callerData: CallerData) {
    var v := Verified(sha, reported, log, callerData);
    v.Ok? && v.value.Some?
  }

  /**
   Binding: one REPORT_DATA accepted with two logs and caller data names one
   event count, one set of registers, one caller data and, register by
   register, one sequence of digests - or the hash is broken, explicitly.
   */
  function BindingClash(sha: Sha384, reported: ReportData, log: Bytes, callerData: CallerData,
                        log': Bytes, callerData': CallerData): (clash: Option<Clash>)
    requires Accepts(sha, reported, log, callerData) && Accepts(sha, reported, log', callerData')
    ensures FromLe32(reported[..4]) <= |log| / ENTRY_LEN && FromLe32(reported[..4]) <= |log'| / ENTRY_LEN
    ensures clash.None? <==> callerData == callerData' && SameSequences(log, log', FromLe32(reported[..4]), REGISTER_COUNT)
    ensures clash.None? ==> Verified(sha, reported, log, callerData) == Verified(sha, reported, log', callerData')
    ensures clash.Some? ==> Breaks(sha, clash.value)
  {
    var n := FromLe32(reported[..4]);
    ReplayOutcome(sha, log, n);
    ReplayOutcome(sha, log', n);
    var rs := ReplayFrom(sha, ZeroRegisters(), log, n);
    var rs' := ReplayFrom(sha, ZeroRegisters(), log', n);
    var p := Preimage(n, rs, callerData);
    var p' := Preimage(n, rs', callerData');
    ConcatSplit(Header(n), sha(p), Header(n), sha(p'));
    if p != p' then
      EqualPartsEqualPreimages(sha, log, callerData, log', callerData', n);
      Some(Collision(p, p'))
    else
      PreimageInjective(n, rs, callerData, rs', callerData');
      SameRegistersSameChains(sha, log, log', n);
      RegistersClash(sha, log, log', n, REGISTER_COUNT)
  }

  lemma {:induction false} EqualPartsEqualPreimages(sha: Sha384, log: Bytes, callerData: CallerData, log': Bytes,
                                                    callerData': CallerData, n: U32)
    requires WellFormed(log) && WellFormed(log') && n <= |log| / ENTRY_LEN && n <= |log'| / ENTRY_LEN
    requires Preimage(n, ReplayFrom(sha, ZeroRegisters(), log, n), callerData)
          != Preimage(n, ReplayFrom(sha, ZeroRegisters(), log', n), callerData')
    ensures !(callerData == callerData' && SameSequences(log, log', n, REGISTER_COUNT))
  {
    if SameSequences(log, log', n, REGISTER_COUNT) {
      SameDigestsSameRegisters(sha, log, log', n);
    }
  }

  /**
   The commitment does not bind how the sequences of different registers are
   interleaved: logs that agree register by register are indistinguishable.
   */
  lemma {:induction false} SameDigestsSameRegisters(sha: Sha384, log: Bytes, log': Bytes, n: nat)
    requires WellFormed(log) && WellFormed(log') && n <= |log| / ENTRY_LEN && n <= |log'| / ENTRY_LEN
    requires SameSequences(log, log', n, REGISTER_COUNT)
    ensures ReplayFrom(sha, ZeroRegisters(), log, n) == ReplayFrom(sha, ZeroRegisters(), log', n)
  {
    SameRegistersSameChains(sha, log, log', n);
  }

  /** So reports cannot tell such logs apart: any report over those entries gets one verdict with both. */
  lemma {:induction false} SameSequencesSameVerdict(sha: Sha384, reported: ReportData, log: Bytes, log': Bytes, callerData: CallerData)
    requires WellFormed(log) && WellFormed(log')
    requires FromLe32(reported[..4]) <= |log| / ENTRY_LEN && FromLe32(reported[..4]) <= |log'| / ENTRY_LEN
    requires SameSequences(log, log', FromLe32(reported[..4]), REGISTER_COUNT)
    ensures Verified(sha, reported, log, callerData) == Verified(sha, reported, log', callerData)
  {
    var n := FromLe32(reported[..4]);
    SameDigestsSameRegisters(sha, log, log', n);
    ReplayOutcome(sha, log, n);
    ReplayOutcome(sha, log', n);
  }

  /** Two entries of different registers, in one order or the other. */
  function TwoEntries(i: Byte, d: Register, j: Byte, e: Register): (log: Bytes)
    ensures |log| == 2 * ENTRY_LEN
    ensures IndexAt(log, 0) == i && DigestAt(log, 0) == d && IndexAt(log, 1) == j && DigestAt(log, 1) == e
  {
    var a: Bytes := [i] + d;
    var b: Bytes := [j] + e;
    assert (a + b)[1..ENTRY_LEN] == d && (a + b)[ENTRY_LEN + 1..2 * ENTRY_LEN] == e;
    a + b
  }

  lemma {:induction false} TwoEntriesDigests(i: Byte, d: Register, j: Byte, e: Register, r: nat)
    requires i < REGISTER_COUNT && j < REGISTER_COUNT && i != j
    ensures WellFormed(TwoEntries(i, d, j, e))
    ensures DigestsOf(TwoEntries(i, d, j, e), 1, r) == if r == i as int then [d] else []
    ensures DigestsOf(TwoEntries(i, d, j, e), 2, r) == if r == i as int then [d] else if r == j as int then [e] else []
  {
    var log := TwoEntries(i, d, j, e);
    assert DigestsOf(log, 0, r) == [];
  }

  lemma {:induction false} SwappedSequences(d: Register, e: Register, n: nat)
    requires n == 0 || n == 2
    ensures WellFormed(TwoEntries(0, d, 1, e)) && WellFormed(TwoEntries(1, e, 0, d))
    ensures SameSequences(TwoEntries(0, d, 1, e), TwoEntries(1, e, 0, d), n, REGISTER_COUNT)
  {
    TwoEntriesDigests(0, d, 1, e, 0);
    TwoEntriesDigests(1, e, 0, d, 0);
    forall r | 0 <= r < REGISTER_COUNT
      ensures DigestsOf(TwoEntries(0, d, 1, e), n, r) == DigestsOf(TwoEntries(1, e, 0, d), n, r)
    {
      TwoEntriesDigests(0, d, 1, e, r);
      TwoEntriesDigests(1, e, 0, d, r);
    }
  }

  /**
   Two different logs no report tells apart, except one that counts the first
   entry only: entries of different registers, swapped. For a count of two they
   replay alike, a higher count finds both too short, a count of zero reads none.
   */
  lemma {:induction false} InterleavingIsNotBound(sha: Sha384, reported: ReportData, callerData: CallerData, d: Register, e: Register)
    requires FromLe32(reported[..4]) != 1
    ensures var (log, swapped) := (TwoEntries(0, d, 1, e), TwoEntries(1, e, 0, d));
      log != swapped && Verified(sha, reported, log, callerData) == Verified(sha, reported, swapped, callerData)
  {
    hide DigestsOf, ReplayFrom, SameSequences, ReportDataOf, FromLe32, FirstBad;
    var n := FromLe32(reported[..4]);
    var log, swapped := TwoEntries(0, d, 1, e), TwoEntries(1, e, 0, d);
    assert IndexAt(log, 0) != IndexAt(swapped, 0);
    SwappedSequences(d, e, 0);
    if n <= 2 {
      SwappedSequences(d, e, n);
      SameSequencesSameVerdict(sha, reported, log, swapped, callerData);
    } else {
      ReplayOutcome(sha, log, n);
      ReplayOutcome(sha, swapped, n);
    }
  }

  /** A report over the first entry alone does tell them apart: accepted with both, it breaks the hash. */
  lemma {:induction false} FirstEntryIsBound(sha: Sha384, reported: ReportData, callerData: CallerData, d: Register, e: Register)
    requires FromLe32(reported[..4]) == 1
    requires Accepts(sha, reported, TwoEntries(0, d, 1, e), callerData) && Accepts(sha, reported, TwoEntries(1, e, 0, d), callerData)
    ensures BindingClash(sha, reported, TwoEntries(0, d, 1, e), callerData, TwoEntries(1, e, 0, d), callerData).Some?
  {
    TwoEntriesDigests(0, d, 1, e, 0);
    TwoEntriesDigests(1, e, 0, d, 0);
  }

  lemma {:induction false} RefusedLogs(sha: Sha384, reported: ReportData, log: Bytes, callerData: CallerData)
    ensures Verified(sha, reported, log, callerData).Err? <==> !WellFormed(log)
  {
    ReplayOutcome(sha, log, FromLe32(reported[..4]));
  }

  // ------------------------------------------------- the result of the platform

  /** The fields of an SNP verdict this check reads and writes. */
  class SnpResult {
    var reportDataMatch: Option<bool>
    var launchDigestMatch: Option<bool>
    var measurementRegistersMatch: Option<bool>
    var measurementRegisters: Option<Committed>
    /** Every other rule of the verdict held: host data, TCB, CRL, debug, migration, VMPL. */
    const otherRules: bool

    constructor (launchDigestMatch: Option<bool>, otherRules: bool)
      ensures this.launchDigestMatch == launchDigestMatch && this.otherRules == otherRules
      ensures reportDataMatch == None && measurementRegistersMatch == None && measurementRegisters == None
    {
      this.reportDataMatch, this.measurementRegistersMatch, this.measurementRegisters := None, None, None;
      this.launchDigestMatch, this.otherRules := launchDigestMatch, otherRules;
    }

    /** No rule that was evaluated failed. */
    predicate Passed()
      reads this
    {
      && reportDataMatch != Some(false)
      && launchDigestMatch != Some(false)
      && measurementRegistersMatch != Some(false)
      && otherRules
    }

    method CheckMeasurementRegisters(sha: Sha384, reportData: ReportData, log: Bytes, callerData: CallerData,
                                     expected: seq<Register>) returns (r: Result<(), LogError>)
      modifies this
      ensures launchDigestMatch == old(launchDigestMatch)
      ensures r.Err? <==> !WellFormed(log)
      ensures r.Err? ==> unchanged(this)
      ensures r.Ok? ==>
        var pinned := Accepts(sha, reportData, log, callerData) && launchDigestMatch == Some(true);
        && reportDataMatch == Some(pinned)
        && measurementRegistersMatch == Some(pinned &&
             forall i :: 0 <= i < REGISTER_COUNT ==>
               Verified(sha, reportData, log, callerData).value.value.registers[i] == Pin(expected, i))
      // The registers are shown only on a verdict that passed, and are then the pinned ones.
      ensures r.Ok? ==> (measurementRegisters.Some? <==>
        reportDataMatch == Some(true) && measurementRegistersMatch == Some(true) && otherRules)
      ensures r.Ok? ==> (Passed() <==> measurementRegisters.Some?)
      ensures r.Ok? && measurementRegisters.Some? ==>
        && Verified(sha, reportData, log, callerData) == Ok(measurementRegisters)
        && measurementRegisters.value.registers == seq(REGISTER_COUNT, i requires i >= 0 => Pin(expected, i))
    {
      RefusedLogs(sha, reportData, log, callerData);
      hide Verified, WellFormed, Pin;
      var verified := Verify(sha, reportData, log, callerData);
      if verified.Err? {
        return Err(verified.error);
      }
      var registers := if launchDigestMatch == Some(true) then verified.value else None;
      reportDataMatch := Some(registers.Some?);
      var all := registers.Some?;
      if registers.Some? {
        for i := 0 to REGISTER_COUNT
          invariant all <==> forall k :: 0 <= k < i ==> registers.value.registers[k] == Pin(expected, k)
        {
          if registers.value.registers[i] != Pin(expected, i) {
            all := false;
          }
        }
      }
      measurementRegistersMatch := Some(all);
      measurementRegisters := if Passed() then registers else None;
      r := Ok(());
    }
  }

  /** The value pinned for register `i`: zero when none is given. */
  function Pin(expected: seq<Register>, i: nat): Register {
    if i < |expected| then expected[i] else ZERO_REGISTER
  }
}
