/**
 The pause of a vendor host that answered 429 or 503, and how far a Retry-After
 is honoured: how long, by whom, and by which requests.
 */
module StorePause {
  import opened Prelude
  import opened CollateralDates
  import opened StoreSteps
  import opened StoreSafety
  import opened StoreTiming

  // ---------------------------------------------------------------- how long

  predicate PausedAtMost(cfg: Config, s: State, host: string) {
    var until := HostNamed(s, host).pausedUntil;
    until.Some? ==> until.value <= s.clock + cfg.recheck
  }

  /** The vendor itself asks, in this reply, to leave `host` alone. */
  predicate PausesHost(a: Action, host: string) {
    a.Reply? && HostOf(a.key.url) == host && Pauses(a.direct, a.answer)
  }

  /** Only a 429 or 503 of the vendor itself moves the pause of its host, and to no more than `recheck` from now. */
  lemma {:induction false} StepBoundsPause(pieces: Pieces, cfg: Config, s: State, a: Action, host: string)
    requires Enabled(pieces, s, a)
    ensures var t := Step(pieces, cfg, s, a);
      && (PausedAtMost(cfg, s, host) ==> PausedAtMost(cfg, t, host))
      && HostNamed(t, host).pausedUntil ==
           if PausesHost(a, host) then Some(s.clock + PauseOf(cfg, a.answer.error)) else HostNamed(s, host).pausedUntil
  {
    hide HostOf, AfterReply, Due;
  }

  /**
   Whatever Retry-After the vendor sends, its host is at no moment of any run
   paused for longer than `recheck` from that moment.
   */
  lemma {:induction false} PauseIsBounded(pieces: Pieces, cfg: Config, states: seq<State>, actions: seq<Action>,
                                          n: nat, host: string)
    requires Run(pieces, cfg, states, actions) && n <= |actions|
    ensures PausedAtMost(cfg, states[n], host)
  {
    if n > 0 {
      PauseIsBounded(pieces, cfg, states, actions, n - 1, host);
      StepBoundsPause(pieces, cfg, states[n - 1], actions[n - 1], host);
    }
  }

  /** For how many seconds the vendor asks to be left alone; without a Retry-After it counts as ten. */
  function AskedFor(e: HttpError): nat {
    if e.retryAfter.Some? then e.retryAfter.value else 10
  }

  /** What a caller can check: the configured interval against the header sent. */
  predicate Honours(cfg: Config, seconds: nat) {
    (1 <= seconds && seconds * SECOND <= cfg.recheck) || (seconds == 0 && cfg.recheck == 0)
  }

  /**
   A Retry-After is kept to the second exactly when it is at least one and fits
   `recheck`; a zero counts as one second. So are the ten seconds without one.
   */
  lemma {:induction false} PauseKeepsRetryAfter(cfg: Config, e: HttpError)
    ensures PauseOf(cfg, e) == AskedFor(e) * SECOND <==> Honours(cfg, AskedFor(e))
    ensures StandsFor(cfg, Unavailable(e)) == AskedFor(e) * SECOND <==> Honours(cfg, AskedFor(e))
    // Otherwise the cap, or the second that a zero counts as.
    ensures PauseOf(cfg, e) == StandsFor(cfg, Unavailable(e))
    ensures AskedFor(e) * SECOND > cfg.recheck ==> PauseOf(cfg, e) == cfg.recheck
    ensures AskedFor(e) == 0 && SECOND <= cfg.recheck ==> PauseOf(cfg, e) == SECOND
    ensures AskedFor(e) == 0 && SECOND > cfg.recheck ==> PauseOf(cfg, e) == cfg.recheck
  {}

  /** A failure recorded at `since` stands for exactly `length` from then on. */
  ghost predicate StandsUntil(cfg: Config, s: State, url: Url, length: nat) {
    forall clock: Instant :: FailureStands(cfg, s.(clock := clock), url) <==> clock < s.clock + length
  }

  /** The documented silence after an outage, carried out by the record: for its Retry-After, under the same condition. */
  lemma {:induction false} RecordStandsForRetryAfter(pieces: Pieces, cfg: Config, s: State, key: Key)
    requires Enabled(pieces, s, Record(key)) && s.ops[key].stage.failure.Unavailable?
    ensures var seconds := AskedFor(s.ops[key].stage.failure.error);
      StandsUntil(cfg, Step(pieces, cfg, s, Record(key)), key.url, seconds * SECOND) <==> Honours(cfg, seconds)
  {
    var seconds := AskedFor(s.ops[key].stage.failure.error);
    var t := Step(pieces, cfg, s, Record(key));
    var stands := StandsFor(cfg, s.ops[key].stage.failure);
    PauseKeepsRetryAfter(cfg, s.ops[key].stage.failure.error);
    assert forall clock: Instant :: FailureStands(cfg, t.(clock := clock), key.url) <==> clock < s.clock + stands;
    if stands != seconds * SECOND {
      var least := s.clock + if stands < seconds * SECOND then stands else seconds * SECOND;
      assert FailureStands(cfg, t.(clock := least), key.url) != (least < s.clock + seconds * SECOND);
    }
  }

  const DEFAULT_RECHECK: nat := 300 * SECOND
  const AN_HOUR := HttpError(Some(503), Some(3600))

  /**
   Where the documentation fails, with the interval the code ships: a vendor
   that asks for an hour is asked again after five minutes, about any piece and
   about the very piece that failed.
   */
  lemma {:induction false} AnHourIsCutToFiveMinutes(pieces: Pieces, s: State, key: Key, random: U64)
    requires At(s, key, Asking)
    ensures var cfg := Config(DEFAULT_RECHECK, true);
      var paused := Step(pieces, cfg, s, Reply(key, true, Err(AN_HOUR), random));
      && HostState(paused, key.url).pausedUntil == Some(s.clock + 300 * SECOND)
      && Enabled(pieces, paused, Record(key))
      && StandsUntil(cfg, Step(pieces, cfg, paused, Record(key)), key.url, 300 * SECOND)
  {}

  // ------------------------------------------------------------- by which requests

  /** The vendor host asked to be left alone until now or later. */
  predicate PauseStands(s: State, host: string) {
    HostNamed(s, host).pausedUntil.Some? && s.clock <= HostNamed(s, host).pausedUntil.value
  }

  /** The gate lets an operation on exactly when no pause of its host stands; else it is told to wait and nothing is asked. */
  lemma {:induction false} GateOfThePause(pieces: Pieces, cfg: Config, s: State, key: Key)
    requires Enabled(pieces, s, CheckPause(key))
    ensures var t := Step(pieces, cfg, s, CheckPause(key));
      && (t.ops[key].stage.AtAdmit? || t.ops[key].stage.Asking? <==> !PauseStands(s, HostOf(key.url)))
      && (PauseStands(s, HostOf(key.url)) ==>
            t.ops[key].stage.Done? && t.ops[key].stage.outcome.Err? && !AsksAbout(s, t, key.url))
      && t.hosts == s.hosts && t.mem == s.mem && t.failed == s.failed
  {
    var t := Step(pieces, cfg, s, CheckPause(key));
    if PauseStands(s, HostOf(key.url)) && AsksAbout(s, t, key.url) {
      AskingSteps(pieces, cfg, s, CheckPause(key), key.url);
    }
  }

  /** The last word of the vendor about `host` before state `n` is the reply at step `i`. */
  predicate LastPause(actions: seq<Action>, i: int, n: nat, host: string)
    requires n <= |actions|
  {
    0 <= i < n && PausesHost(actions[i], host) && forall k :: i < k < n ==> !PausesHost(actions[k], host)
  }

  /** When the pause that the reply at step `i` asked for is over. */
  function PauseEnd(cfg: Config, states: seq<State>, actions: seq<Action>, i: nat): Instant
    requires i < |actions| <= |states| && actions[i].Reply? && actions[i].answer.Err?
  {
    states[i].clock + PauseOf(cfg, actions[i].answer.error)
  }

  lemma {:induction false} PausedUntilMeans(pieces: Pieces, cfg: Config, states: seq<State>, actions: seq<Action>,
                                            n: nat, host: string, until: Instant)
    requires Run(pieces, cfg, states, actions) && n <= |actions|
    ensures HostNamed(states[n], host).pausedUntil == Some(until)
       <==> exists i :: LastPause(actions, i, n, host) && until == PauseEnd(cfg, states, actions, i)
  {
    hide Step, PausesHost, HostOf, Enabled;
    if n > 0 {
      PausedUntilMeans(pieces, cfg, states, actions, n - 1, host, until);
      StepBoundsPause(pieces, cfg, states[n - 1], actions[n - 1], host);
      if PausesHost(actions[n - 1], host) {
        assert LastPause(actions, n - 1, n, host);
      } else {
        assert forall i :: LastPause(actions, i, n, host) <==> LastPause(actions, i, n - 1, host);
      }
    }
  }

  /**
   At any moment of any run a host is paused exactly when the last 429 or 503 it
   answered itself asked for a pause that is not over: earlier ones no longer
   count, whether they asked for less or for more.
   */
  lemma {:induction false} PauseStandsMeans(pieces: Pieces, cfg: Config, states: seq<State>, actions: seq<Action>,
                                            n: nat, host: string)
    requires Run(pieces, cfg, states, actions) && n <= |actions|
    ensures PauseStands(states[n], host)
       <==> exists i :: LastPause(actions, i, n, host) && states[n].clock <= PauseEnd(cfg, states, actions, i)
  {
    hide Run, HostOf;
    var until := HostNamed(states[n], host).pausedUntil;
    if until.Some? {
      PausedUntilMeans(pieces, cfg, states, actions, n, host, until.value);
    }
    forall i | LastPause(actions, i, n, host)
      ensures until == Some(PauseEnd(cfg, states, actions, i))
    {
      PausedUntilMeans(pieces, cfg, states, actions, n, host, PauseEnd(cfg, states, actions, i));
    }
  }

  /** Whenever the clock next reads `clock`, the host is paused exactly up to `until`, and at that very moment. */
  ghost predicate PausedUpTo(s: State, host: string, until: Instant) {
    forall clock: Instant :: PauseStands(s.(clock := clock), host) <==> clock <= until
  }

  /**
   The documented pause, over runs: the last 429 or 503 of a host keeps it paused
   until its Retry-After is over if and only if that is at least a second and
   fits `recheck`.
   */
  lemma {:induction false} ReplyPausesForRetryAfter(pieces: Pieces, cfg: Config, states: seq<State>, actions: seq<Action>,
                                                    i: nat, n: nat, host: string)
    requires Run(pieces, cfg, states, actions) && n <= |actions| && LastPause(actions, i, n, host)
    ensures var seconds := AskedFor(actions[i].answer.error);
      PausedUpTo(states[n], host, states[i].clock + seconds * SECOND) <==> Honours(cfg, seconds)
  {
    hide Run, HostOf;
    var seconds := AskedFor(actions[i].answer.error);
    var (s, end, told) := (states[n], PauseEnd(cfg, states, actions, i), states[i].clock + seconds * SECOND);
    PausedUntilMeans(pieces, cfg, states, actions, n, host, end);
    assert PausedUpTo(s, host, end);
    PauseKeepsRetryAfter(cfg, actions[i].answer.error);
    if end != told {
      var most := if end < told then told else end;
      assert PauseStands(s.(clock := most), host) != (most <= told);
    }
  }

  /** The operation on `key` was let on at step `i`, with no pause standing, and waited to be counted until `n`. */
  predicate LetOn(states: seq<State>, actions: seq<Action>, i: int, n: nat, key: Key)
    requires |states| == |actions| + 1 && n <= |actions|
  {
    && 0 <= i < |actions| && i <= n
    && actions[i] == CheckPause(key) && !PauseStands(states[i], HostOf(key.url))
    && forall k :: i < k <= n ==> At(states[k], key, AtAdmit)
  }

  lemma {:induction false} AdmitComesFromTheGate(pieces: Pieces, cfg: Config, s: State, a: Action, key: Key)
    requires Enabled(pieces, s, a) && At(Step(pieces, cfg, s, a), key, AtAdmit) && !At(s, key, AtAdmit)
    ensures a == CheckPause(key) && !PauseStands(s, HostOf(key.url))
  {
    if !Touches(pieces, a, key) {
      OthersUntouched(pieces, cfg, s, a, key);
    }
  }

  lemma {:induction false} WaitingWasLetOn(pieces: Pieces, cfg: Config, states: seq<State>, actions: seq<Action>,
                                           n: nat, key: Key) returns (i: nat)
    requires Run(pieces, cfg, states, actions) && n <= |actions| && At(states[n], key, AtAdmit)
    ensures i < n && LetOn(states, actions, i, n, key)
    decreases n
  {
    if At(states[n - 1], key, AtAdmit) {
      i := WaitingWasLetOn(pieces, cfg, states, actions, n - 1, key);
    } else {
      AdmitComesFromTheGate(pieces, cfg, states[n - 1], actions[n - 1], key);
      i := n - 1;
    }
  }

  /**
   Every request of every run passed the gate, now or earlier, at a moment when
   no pause of its host stood; from then on it only waited to be counted.
   */
  lemma {:induction false} RequestsWereLetOn(pieces: Pieces, cfg: Config, states: seq<State>, actions: seq<Action>,
                                             j: nat, url: Url)
    requires Run(pieces, cfg, states, actions) && j < |actions| && AsksAbout(states[j], states[j + 1], url)
    ensures actions[j].CheckPause? || actions[j].Admit?
    ensures actions[j].key.url == url && exists i :: LetOn(states, actions, i, j, actions[j].key)
  {
    AskingSteps(pieces, cfg, states[j], actions[j], url);
    if actions[j].CheckPause? {
      GateOfThePause(pieces, cfg, states[j], actions[j].key);
      assert LetOn(states, actions, j, j, actions[j].key);
    } else {
      var i := WaitingWasLetOn(pieces, cfg, states, actions, j, actions[j].key);
    }
  }

  /** A request about a piece that was held, or is on disk, never goes out while a pause stands. */
  lemma {:induction false} WarmRequestsRespectThePause(pieces: Pieces, cfg: Config, states: seq<State>, actions: seq<Action>,
                                                       j: nat, url: Url)
    requires Run(pieces, cfg, states, actions) && j < |actions| && AsksAbout(states[j], states[j + 1], url)
    requires PauseStands(states[j], HostOf(url))
    ensures actions[j].Admit? && IsCold(actions[j].key, states[j].ops[actions[j].key])
  {
    RunKeepsInv(pieces, cfg, states, actions, j);
    AskingSteps(pieces, cfg, states[j], actions[j], url);
    if actions[j].CheckPause? {
      GateOfThePause(pieces, cfg, states[j], actions[j].key);
    } else {
      assert OpOk(pieces, cfg, states[j], actions[j].key, states[j].ops[actions[j].key]);
    }
  }

  lemma {:induction false} ClockOverRun(pieces: Pieces, cfg: Config, states: seq<State>, actions: seq<Action>, i: nat, j: nat)
    requires Run(pieces, cfg, states, actions) && i <= j <= |actions|
    ensures states[i].clock <= states[j].clock
    decreases j
  {
    hide Step, Enabled;
    if i < j {
      ClockOverRun(pieces, cfg, states, actions, i, j - 1);
      ClockNeverGoesBack(pieces, cfg, states[j - 1], actions[j - 1]);
    }
  }

  /** After step `i` the vendor asks again, at step `k`, for a pause that is over sooner. */
  predicate CutShort(cfg: Config, states: seq<State>, actions: seq<Action>, i: nat, k: nat, host: string)
    requires i < k < |actions| <= |states| && PausesHost(actions[i], host)
  {
    PausesHost(actions[k], host) && PauseEnd(cfg, states, actions, k) < PauseEnd(cfg, states, actions, i)
  }

  lemma {:induction false} PauseReaches(pieces: Pieces, cfg: Config, states: seq<State>, actions: seq<Action>,
                                        i: nat, n: nat, host: string)
    requires Run(pieces, cfg, states, actions) && i < n <= |actions| && PausesHost(actions[i], host)
    requires forall k :: i < k < n ==> !CutShort(cfg, states, actions, i, k, host)
    ensures var until := HostNamed(states[n], host).pausedUntil;
      until.Some? && until.value >= PauseEnd(cfg, states, actions, i)
    decreases n
  {
    hide Step, Enabled, HostOf, HostNamed, Pauses, PauseOf;
    StepBoundsPause(pieces, cfg, states[n - 1], actions[n - 1], host);
    if i < n - 1 {
      PauseReaches(pieces, cfg, states, actions, i, n - 1, host);
      assert !CutShort(cfg, states, actions, i, n - 1, host);
    }
  }

  /**
   A host that asked to be left alone is left alone. In every run, from a 429 or
   503 of the host itself on, no request about any of its pieces goes out before
   the pause it asked for is over, except after a later such reply whose pause
   is over sooner, or by a cold fetch that was past the gate already.
   */
  lemma {:induction false} PausedHostIsLeftAlone(pieces: Pieces, cfg: Config, states: seq<State>, actions: seq<Action>,
                                                 i: nat, j: nat, url: Url)
    requires Run(pieces, cfg, states, actions) && i < j < |actions|
    requires PausesHost(actions[i], HostOf(url)) && AsksAbout(states[j], states[j + 1], url)
    ensures
      || states[j].clock > PauseEnd(cfg, states, actions, i)
      || (exists k :: i < k < j && CutShort(cfg, states, actions, i, k, HostOf(url)))
      || (actions[j].Admit? && exists g :: g <= i && LetOn(states, actions, g, j, actions[j].key))
  {
    hide AsksAbout, HostOf, CutShort;
    RequestsWereLetOn(pieces, cfg, states, actions, j, url);
    var g :| LetOn(states, actions, g, j, actions[j].key);
    if g > i && forall k :: i < k < j ==> !CutShort(cfg, states, actions, i, k, HostOf(url)) {
      PauseReaches(pieces, cfg, states, actions, i, g, HostOf(url));
      ClockOverRun(pieces, cfg, states, actions, g, j);
    }
  }

  /** So the documented silence is kept, request by request, for every Retry-After the code honours. */
  lemma {:induction false} RetryAfterIsWaitedOut(pieces: Pieces, cfg: Config, states: seq<State>, actions: seq<Action>,
                                                 i: nat, j: nat, url: Url)
    requires Run(pieces, cfg, states, actions) && i < j < |actions|
    requires PausesHost(actions[i], HostOf(url)) && AsksAbout(states[j], states[j + 1], url)
    requires Honours(cfg, AskedFor(actions[i].answer.error))
    requires forall k :: i < k < j ==> !CutShort(cfg, states, actions, i, k, HostOf(url))
    ensures states[j].clock > states[i].clock + AskedFor(actions[i].answer.error) * SECOND
         || (actions[j].Admit? && exists g :: g <= i && LetOn(states, actions, g, j, actions[j].key))
  {
    hide AsksAbout, HostOf;
    PausedHostIsLeftAlone(pieces, cfg, states, actions, i, j, url);
    PauseKeepsRetryAfter(cfg, actions[i].answer.error);
  }

  // ---------------------------------------------------------------- what is told

  /** Whole seconds of `left`, but at least one. */
  predicate WholeSeconds(told: nat, left: nat) {
    if left < SECOND then told == 1 else told * SECOND <= left < (told + 1) * SECOND
  }

  /** The failure of a fetch that is told to come back after `told` seconds, without having asked. */
  predicate IsWait(stage: Stage, told: nat) {
    stage == Done(Err(Unavailable(HttpError(None, Some(told)))))
  }

  /**
   A fetch that finds its host paused is told the whole seconds left. Waiting just
   those is not enough while a second or more is left: the fraction is cut off.
   One second more always is.
   */
  lemma {:induction false} PauseTellsTheWait(pieces: Pieces, cfg: Config, s: State, key: Key) returns (told: nat)
    requires Enabled(pieces, s, CheckPause(key)) && PauseStands(s, HostOf(key.url))
    ensures var left := HostNamed(s, HostOf(key.url)).pausedUntil.value - s.clock;
      && WholeSeconds(told, left)
      && IsWait(Step(pieces, cfg, s, CheckPause(key)).ops[key].stage, told)
      && (PauseStands(s.(clock := s.clock + told * SECOND), HostOf(key.url)) <==> left >= SECOND)
      && !PauseStands(s.(clock := s.clock + (told + 1) * SECOND), HostOf(key.url))
  {
    hide HostOf;
    var left := HostNamed(s, HostOf(key.url)).pausedUntil.value - s.clock;
    told := Max(left / SECOND, 1);
  }

  /** The error of a reply as it is handed on: the same, but a pause without a Retry-After tells its whole seconds. */
  predicate HandedOn(cfg: Config, direct: bool, e: HttpError, told: HttpError) {
    && told.status == e.status
    && if Pauses(direct, Err(e)) && e.retryAfter.None?
       then told.retryAfter.Some? && WholeSeconds(told.retryAfter.value, PauseOf(cfg, e))
       else told.retryAfter == e.retryAfter
  }

  /** What becomes of each reply: the copy when it verifies, else the failure it is answered or recorded as. */
  lemma {:induction false} RepliesAreTold(pieces: Pieces, cfg: Config, s: State, key: Key,
                                          direct: bool, answer: Result<Copy, HttpError>, random: U64)
    requires Enabled(pieces, s, Reply(key, direct, answer, random))
    ensures var (stage, id) := (Step(pieces, cfg, s, Reply(key, direct, answer, random)).ops[key].stage, s.ops[key].id);
      match answer
      case Ok(copy) =>
        (match pieces.verify(id, copy)
         case None => stage == Done(Err(Refused))
         case Some(dates) =>
           && stage.Done? && stage.outcome.Ok?
           && stage.outcome.value.(refreshAt := 0) == Entry(copy, dates, if direct then Vendor else Cache, 0, s.clock))
      case Err(e) =>
        exists told :: HandedOn(cfg, direct, e, told) &&
          stage == if SaysNotPublished(pieces, id, direct, answer) then Recording(NotPublished(told))
                   else if IsDown(e.status) then Recording(Unavailable(told))
                   else Done(Err(Unavailable(told)))
  {
    hide RefreshAt, HostOf, PauseOf;
    if answer.Err? {
      assert HandedOn(cfg, direct, answer.error, Told(cfg, direct, answer).error);
    }
  }
}
