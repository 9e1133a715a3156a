/**
 The native store as a state machine over its atomic steps. Each step is what
 the code does between two points where another caller can run: one read or
 update of a shared map, one lock held, one reply. What the disk holds, what
 the upstream answers, and when, are arguments of the steps: anything at all.

 One entry per vendor URL is loaded by a single flight (`try_get_with`) and
 then refreshed under a lock per URL (`and_compute_with`). Memory is modelled
 without eviction.
 */
module StoreSteps {
  import opened Prelude
  import opened CollateralDates

  type Url = string
  /** Numbers stand for ids: which chip, platform, CA or image a piece is for. */
  type Id = nat
  /** Nanoseconds of the monotone clock. */
  type Instant = nat

  const SECOND: nat := 1_000_000_000
  const OUTAGE: nat := 10 * SECOND
  const MAX_AGE: nat := 3600 * SECOND
  const HOST_PAUSE: nat := 10 * SECOND
  const COLD_PER_SECOND: nat := 10

  datatype Source = Held | Attached | Memory | Disk | Vendor | Cache

  /** A vendor response: body and issuer chain. */
  datatype Copy = Copy(body: Bytes, chain: Option<string>)

  /** Why a fetch failed: the HTTP status (none for a network error) and the Retry-After, in seconds. */
  datatype HttpError = HttpError(status: Option<nat>, retryAfter: Option<nat>) {
    predicate NotFound() {
      status == Some(404) || status == Some(410)
    }

    /** Down or overloaded: a network error, a 5xx, 408 or 429. */
    predicate IsOutage() {
      status.None? || status.value >= 500 || status.value == 408 || status.value == 429
    }

    predicate AsksToWait() {
      status == Some(429) || status == Some(503)
    }
  }

  datatype Failure = Unavailable(error: HttpError) | Refused | NotPublished(error: HttpError)

  /** What the kinds of collateral say: where a piece is published and which copies verify as it. */
  datatype Pieces = Pieces(url: Id -> Url, verify: (Id, Copy) -> Option<Dates>, namedByEvidence: Id -> bool)

  datatype Config = Config(recheck: nat, online: bool)

  datatype Entry = Entry(copy: Copy, dates: Dates, origin: Source, refreshAt: int, checkedAt: Instant)

  datatype Host = Host(pausedUntil: Option<Instant>, second: Option<Instant>, cold: nat)

  const NEW_HOST := Host(None, None, 0)

  /** The two locks of a URL: the single flight that loads it, the lock that refreshes it. */
  datatype Lane = Load | Refresh
  datatype Key = Key(url: Url, lane: Lane)

  /** Where an operation stands. */
  datatype Stage =
    | AtFailed                          // about to look at the recorded failures
    | AtPause                           // about to look at the host's pause
    | AtAdmit                           // about to be counted as a cold fetch
    | Asking                            // the upstream is being asked
    | Recording(failure: Failure)       // about to record a failure
    | Done(outcome: Result<Entry, Failure>)

  /** What an operation falls back on: the disk copy it read, or the entry it holds the lock of. */
  datatype Op = Op(id: Id, kept: Option<Entry>, stage: Stage)

  datatype State = State(
    clock: Instant,
    mem: map<Url, Entry>,
    failed: map<Url, (Instant, Failure)>,
    hosts: map<string, Host>,
    ops: map<Key, Op>)

  const INITIAL := State(0, map[], map[], map[], map[])

  // ------------------------------------------------------------ pure pieces

  function WithoutPrefix(s: string, prefix: string): string {
    if prefix <= s then s[|prefix|..] else s
  }

  function UpToDelimiter(s: string): (r: string)
    ensures r <= s && '/' !in r && '?' !in r
  {
    if s == [] || s[0] == '/' || s[0] == '?' then [] else [s[0]] + UpToDelimiter(s[1..])
  }

  const SCHEME := "https://"

  function HostOf(url: Url): string {
    UpToDelimiter(WithoutPrefix(url, SCHEME))
  }

  function HostNamed(s: State, host: string): Host {
    if host in s.hosts then s.hosts[host] else NEW_HOST
  }

  function HostState(s: State, url: Url): Host {
    HostNamed(s, HostOf(url))
  }

  function Min(a: nat, b: nat): nat { if a <= b then a else b }
  function Max(a: nat, b: nat): nat { if a <= b then b else a }

  /** `copy` as a verified entry, if it verifies as the piece `id`. */
  function Check(pieces: Pieces, id: Id, copy: Copy, origin: Source, random: U64, now: Instant): Option<Entry> {
    match pieces.verify(id, copy)
    case None => None
    case Some(dates) => Some(Entry(copy, dates, origin, RefreshAt(dates, random), now))
  }

  /** Whether to ask the upstream about `entry` again. */
  predicate Due(cfg: Config, entry: Entry, clock: Instant, now: I64, force: bool)
    requires entry.checkedAt <= clock
  {
    var age := clock - entry.checkedAt;
    && age >= cfg.recheck
    && (force || if entry.dates.nextUpdate.Some? then now >= entry.refreshAt else age >= MAX_AGE)
  }

  /** How long a recorded failure is answered again without asking. */
  function StandsFor(cfg: Config, failure: Failure): (d: nat)
    ensures d <= cfg.recheck
  {
    match failure
    case Unavailable(e) =>
      Min(cfg.recheck, if e.retryAfter.Some? then Max(e.retryAfter.value, 1) * SECOND else OUTAGE)
    case _ => cfg.recheck
  }

  predicate FailureStands(cfg: Config, s: State, url: Url) {
    url in s.failed && s.clock < s.failed[url].0 + StandsFor(cfg, s.failed[url].1)
  }

  function Wait(seconds: nat): Failure {
    Unavailable(HttpError(None, Some(Max(seconds, 1))))
  }

  function PauseOf(cfg: Config, e: HttpError): nat {
    Min(cfg.recheck, if e.retryAfter.Some? then Max(e.retryAfter.value, 1) * SECOND else HOST_PAUSE)
  }

  // ---------------------------------------------------------------- the steps

  datatype Action =
    | Tick(elapsed: nat)
    | StartLoad(id: Id, now: I64, disk: Option<Copy>, random: U64)
    | StartRefresh(id: Id, now: I64, force: bool)
    | CheckFailed(key: Key)
    | CheckPause(key: Key)
    | Admit(key: Key)
    | Reply(key: Key, direct: bool, answer: Result<Copy, HttpError>, random: U64)
    | Record(key: Key)
    | Finish(key: Key)
    | Cancel(key: Key)

  predicate At(s: State, key: Key, stage: Stage) {
    key in s.ops && s.ops[key].stage == stage
  }

  /** An entry whose clock reading is not in the future. */
  predicate CanAge(s: State, url: Url) {
    url in s.mem && s.mem[url].checkedAt <= s.clock
  }

  predicate Enabled(pieces: Pieces, s: State, a: Action) {
    match a
    case Tick(_) => true
    case StartLoad(id, _, _, _) => pieces.url(id) !in s.mem && Key(pieces.url(id), Load) !in s.ops
    case StartRefresh(id, _, _) => CanAge(s, pieces.url(id)) && Key(pieces.url(id), Refresh) !in s.ops
    case CheckFailed(key) => At(s, key, AtFailed)
    case CheckPause(key) => At(s, key, AtPause)
    case Admit(key) => At(s, key, AtAdmit)
    case Reply(key, _, _, _) => At(s, key, Asking)
    case Record(key) => key in s.ops && s.ops[key].stage.Recording?
    case Finish(key) => key in s.ops && s.ops[key].stage.Done?
    case Cancel(key) => key in s.ops
  }

  function Moved(s: State, key: Key, stage: Stage): State
    requires key in s.ops
  {
    s.(ops := s.ops[key := s.ops[key].(stage := stage)])
  }

  /** A miss: the disk copy when it is current, else the upstream is asked. */
  function StartLoadStep(pieces: Pieces, s: State, id: Id, now: I64, disk: Option<Copy>, random: U64): State {
    var onDisk := match disk
                  case None => None
                  case Some(copy) => Check(pieces, id, copy, Disk, random, s.clock);
    var stage := if onDisk.Some? && onDisk.value.dates.Current(now) then Done(Ok(onDisk.value)) else AtFailed;
    s.(ops := s.ops[Key(pieces.url(id), Load) := Op(id, onDisk, stage)])
  }

  /** Under the URL's lock: nothing when the entry is not due. */
  function StartRefreshStep(pieces: Pieces, cfg: Config, s: State, id: Id, now: I64, force: bool): State
    requires CanAge(s, pieces.url(id))
  {
    var url := pieces.url(id);
    if Due(cfg, s.mem[url], s.clock, now, force)
    then s.(ops := s.ops[Key(url, Refresh) := Op(id, Some(s.mem[url]), AtFailed)])
    else s
  }

  function CheckFailedStep(cfg: Config, s: State, key: Key): State
    requires key in s.ops
  {
    if !cfg.online then Moved(s, key, Done(Err(Unavailable(HttpError(None, None)))))
    else if FailureStands(cfg, s, key.url) then Moved(s, key, Done(Err(s.failed[key.url].1)))
    else Moved(s, key, AtPause)
  }

  /** Only a load without a disk copy is a cold fetch. */
  predicate IsCold(key: Key, op: Op) {
    key.lane.Load? && op.kept.None?
  }

  function CheckPauseStep(s: State, key: Key): State
    requires key in s.ops
  {
    var until := HostState(s, key.url).pausedUntil;
    if until.Some? && s.clock <= until.value
    then Moved(s, key, Done(Err(Wait((until.value - s.clock) / SECOND))))
    else Moved(s, key, if IsCold(key, s.ops[key]) then AtAdmit else Asking)
  }

  /** The window of cold fetches of a host, after a new second was opened when due. */
  function Window(h: Host, clock: Instant): Host {
    if h.second.None? || clock >= h.second.value + SECOND then h.(second := Some(clock), cold := 0) else h
  }

  function AdmitStep(s: State, key: Key): State
    requires key in s.ops
  {
    var h := Window(HostState(s, key.url), s.clock);
    if h.cold >= COLD_PER_SECOND
    then Moved(s.(hosts := s.hosts[HostOf(key.url) := h]), key, Done(Err(Wait(1))))
    else Moved(s.(hosts := s.hosts[HostOf(key.url) := h.(cold := h.cold + 1)]), key, Asking)
  }

  /** A 429 or 503 from the vendor itself pauses its host. */
  predicate Pauses(direct: bool, answer: Result<Copy, HttpError>) {
    direct && answer.Err? && answer.error.AsksToWait()
  }

  /** The answer as it is handed on: a pause is told to the caller. */
  function Told(cfg: Config, direct: bool, answer: Result<Copy, HttpError>): Result<Copy, HttpError> {
    if Pauses(direct, answer) && answer.error.retryAfter.None?
    then Err(answer.error.(retryAfter := Some(Max(PauseOf(cfg, answer.error) / SECOND, 1))))
    else answer
  }

  /** The vendor's own word that it does not publish a piece the evidence names. */
  predicate SaysNotPublished(pieces: Pieces, id: Id, direct: bool, answer: Result<Copy, HttpError>) {
    && direct && pieces.namedByEvidence(id) && answer.Err?
    && (answer.error.NotFound() || answer.error.status == Some(400))
  }

  function AfterReply(pieces: Pieces, id: Id, direct: bool, answer: Result<Copy, HttpError>, random: U64,
                      clock: Instant): Stage {
    match answer
    case Ok(copy) =>
      (match Check(pieces, id, copy, if direct then Vendor else Cache, random, clock)
       case Some(entry) => Done(Ok(entry))
       case None => Done(Err(Refused)))
    case Err(e) =>
      if e.NotFound() || (pieces.namedByEvidence(id) && e.status == Some(400)) then
        if !pieces.namedByEvidence(id) || !direct then Done(Err(Unavailable(e))) else Recording(NotPublished(e))
      else if e.IsOutage() then Recording(Unavailable(e))
      else Done(Err(Unavailable(e)))
  }

  function ReplyStep(pieces: Pieces, cfg: Config, s: State, key: Key, direct: bool, answer: Result<Copy, HttpError>,
                     random: U64): State
    requires key in s.ops
  {
    var stage := AfterReply(pieces, s.ops[key].id, direct, Told(cfg, direct, answer), random, s.clock);
    var h := HostState(s, key.url);
    if Pauses(direct, answer)
    then Moved(s.(hosts := s.hosts[HostOf(key.url) := h.(pausedUntil := Some(s.clock + PauseOf(cfg, answer.error)))]), key, stage)
    else Moved(s, key, stage)
  }

  function RecordStep(s: State, key: Key): State
    requires key in s.ops && s.ops[key].stage.Recording?
  {
    var failure := s.ops[key].stage.failure;
    Moved(s.(failed := s.failed[key.url := (s.clock, failure)]), key, Done(Err(failure)))
  }

  /** What an operation leaves in memory: the new copy unless it failed or is older than the one kept. */
  function Outcome(key: Key, op: Op, clock: Instant): Option<Entry>
    requires op.stage.Done?
  {
    match (op.stage.outcome, op.kept)
    case (Ok(got), None) => Some(got)
    case (Ok(got), Some(held)) => Some(if got.dates.NotOlderThan(held.dates) then got else Unchanged(key, held, clock))
    case (Err(_), Some(held)) => Some(Unchanged(key, held, clock))
    case (Err(_), None) => None
  }

  /** A refresh notes when it looked; a load serves the disk copy as it was read. */
  function Unchanged(key: Key, held: Entry, clock: Instant): Entry {
    if key.lane.Refresh? then held.(checkedAt := clock) else held
  }

  function FinishStep(s: State, key: Key): State
    requires key in s.ops && s.ops[key].stage.Done?
  {
    var after := Outcome(key, s.ops[key], s.clock);
    s.(mem := if after.Some? then s.mem[key.url := after.value] else s.mem, ops := s.ops - {key})
  }

  /** The caller is gone, at any point: its locks are free, what it did to the shared maps stays. */
  function CancelStep(s: State, key: Key): State {
    s.(ops := s.ops - {key})
  }

  function Step(pieces: Pieces, cfg: Config, s: State, a: Action): State
    requires Enabled(pieces, s, a)
  {
    match a
    case Tick(elapsed) => s.(clock := s.clock + elapsed)
    case StartLoad(id, now, disk, random) => StartLoadStep(pieces, s, id, now, disk, random)
    case StartRefresh(id, now, force) => StartRefreshStep(pieces, cfg, s, id, now, force)
    case CheckFailed(key) => CheckFailedStep(cfg, s, key)
    case CheckPause(key) => CheckPauseStep(s, key)
    case Admit(key) => AdmitStep(s, key)
    case Reply(key, direct, answer, random) => ReplyStep(pieces, cfg, s, key, direct, answer, random)
    case Record(key) => RecordStep(s, key)
    case Finish(key) => FinishStep(s, key)
    case Cancel(key) => CancelStep(s, key)
  }

  /** Any interleaving of any number of callers, each of which may vanish, from an empty store. */
  predicate Run(pieces: Pieces, cfg: Config, states: seq<State>, actions: seq<Action>): (run: bool)
    ensures run ==> |states| == |actions| + 1
  {
    && |states| == |actions| + 1
    && states[0] == INITIAL
    && forall i {:trigger actions[i]} :: 0 <= i < |actions| ==>
         Enabled(pieces, states[i], actions[i]) && states[i + 1] == Step(pieces, cfg, states[i], actions[i])
  }

  /** A run goes on with any step enabled in its last state. */
  lemma {:induction false} RunGoesOn(pieces: Pieces, cfg: Config, states: seq<State>, actions: seq<Action>, a: Action)
    requires Run(pieces, cfg, states, actions) && Enabled(pieces, states[|actions|], a)
    ensures Run(pieces, cfg, states + [Step(pieces, cfg, states[|actions|], a)], actions + [a])
  {}

  /** The host of a URL is what stands between the scheme and the first slash or question mark. */
  lemma {:induction false} HostOfUrl(host: string, rest: string)
    requires '/' !in host && '?' !in host && (rest == "" || rest[0] == '/' || rest[0] == '?')
    ensures HostOf("https:" + ['/', '/'] + host + rest) == host
    ensures !("https:" + ['/', '/'] <= host + rest) ==> HostOf(host + rest) == host
  {
    assert SCHEME == "https:" + ['/', '/'];
    assert (SCHEME + host + rest)[|SCHEME|..] == host + rest;
    UpToDelimiterStops(host, rest);
  }

  lemma {:induction false} UpToDelimiterStops(host: string, rest: string)
    requires '/' !in host && '?' !in host && (rest == "" || rest[0] == '/' || rest[0] == '?')
    ensures UpToDelimiter(host + rest) == host
  {
    if host == "" {
      assert host + rest == rest;
    } else {
      UpToDelimiterStops(host[1..], rest);
      assert (host + rest)[1..] == host[1..] + rest;
    }
  }
}
