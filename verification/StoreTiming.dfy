/**
 When the store asks the upstream: how far refetches of one URL are apart, what
 a recorded failure suppresses, and where "not published" can come from.
 */
module StoreTiming {
  import opened Prelude
  import opened CollateralDates
  import opened StoreSteps
  import opened StoreSafety

  /** This step sends a request about `url` upstream. */
  predicate AsksAbout(s: State, t: State, url: Url) {
    exists lane :: At(t, Key(url, lane), Asking) && !At(s, Key(url, lane), Asking)
  }

  /** A request goes out only in the two steps that end the gate. */
  lemma {:induction false} AskingSteps(pieces: Pieces, cfg: Config, s: State, a: Action, url: Url)
    requires Enabled(pieces, s, a) && AsksAbout(s, Step(pieces, cfg, s, a), url)
    ensures (a.CheckPause? || a.Admit?) && a.key.url == url && PastGate(s.ops[a.key].stage)
    ensures forall lane :: At(Step(pieces, cfg, s, a), Key(url, lane), Asking) && !At(s, Key(url, lane), Asking) ==> a.key == Key(url, lane)
  {
    if a.Reply? {
      AfterReplyIsVerified(pieces, s.ops[a.key].id, a.direct, Told(cfg, a.direct, a.answer), a.random, s.clock);
    }
  }

  // --------------------------------------------------- refetches are spread out

  /**
   `url` was last looked at `since` or later, or is being looked at by an
   operation that has its answer since then, or enough time has gone by.
   */
  predicate Spaced(cfg: Config, s: State, url: Url, since: Instant) {
    var key := Key(url, Refresh);
    && since <= s.clock
    && url in s.mem
    && (s.clock < since + cfg.recheck ==>
          if key in s.ops then Answered(s.ops[key].stage, since) else s.mem[url].checkedAt >= since)
  }

  /** The caller of a refresh vanishes between its answer and noting that it looked. */
  predicate LosesAnswer(s: State, a: Action, url: Url) {
    a == Cancel(Key(url, Refresh)) && a.key in s.ops && (s.ops[a.key].stage.Recording? || s.ops[a.key].stage.Done?)
  }

  predicate Answered(stage: Stage, since: Instant) {
    stage.Recording? || (stage.Done? && (stage.outcome.Ok? ==> stage.outcome.value.checkedAt >= since))
  }

  lemma {:induction false} ReplySpaces(pieces: Pieces, cfg: Config, s: State, a: Action)
    requires Inv(pieces, cfg, s) && Enabled(pieces, s, a) && a.Reply? && a.key.lane.Refresh?
    ensures Spaced(cfg, Step(pieces, cfg, s, a), a.key.url, s.clock)
  {
    assert OpOk(pieces, cfg, s, a.key, s.ops[a.key]);
    AfterReplyIsVerified(pieces, s.ops[a.key].id, a.direct, Told(cfg, a.direct, a.answer), a.random, s.clock);
  }

  /** Of the operation on `key`: a step of another operation leaves it alone. */
  predicate Touches(pieces: Pieces, a: Action, key: Key) {
    match a
    case Tick(_) => false
    case StartLoad(id, _, _, _) => key == Key(pieces.url(id), Load)
    case StartRefresh(id, _, _) => key == Key(pieces.url(id), Refresh)
    case _ => a.key == key
  }

  /** The steps that move one operation on. */
  predicate Moves(a: Action) {
    a.CheckFailed? || a.CheckPause? || a.Admit? || a.Reply? || a.Record?
  }

  lemma {:induction false} MovesOne(pieces: Pieces, cfg: Config, s: State, a: Action)
    requires Enabled(pieces, s, a) && Moves(a)
    ensures var t := Step(pieces, cfg, s, a); a.key in t.ops && t.ops == s.ops[a.key := t.ops[a.key]]
  {
    hide RefreshAt, HostOf, AfterReply, Told, FailureStands, Window, HostState, Pauses;
  }

  lemma {:induction false} OthersUntouched(pieces: Pieces, cfg: Config, s: State, a: Action, key: Key)
    requires Enabled(pieces, s, a) && !Touches(pieces, a, key)
    ensures var t := Step(pieces, cfg, s, a);
      (key in t.ops <==> key in s.ops) && (key in s.ops ==> t.ops[key] == s.ops[key])
  {
    if Moves(a) {
      hide Step, Enabled;
      MovesOne(pieces, cfg, s, a);
    } else {
      hide CheckFailedStep, CheckPauseStep, AdmitStep, ReplyStep, RecordStep, RefreshAt, Check, Due, Outcome;
    }
  }

  lemma {:induction false} ClockNeverGoesBack(pieces: Pieces, cfg: Config, s: State, a: Action)
    requires Enabled(pieces, s, a)
    ensures Step(pieces, cfg, s, a).clock >= s.clock
    ensures !a.Tick? ==> Step(pieces, cfg, s, a).clock == s.clock
  {}

  lemma {:induction false} StepKeepsSpacing(pieces: Pieces, cfg: Config, s: State, a: Action, url: Url, since: Instant)
    requires Inv(pieces, cfg, s) && Enabled(pieces, s, a) && Spaced(cfg, s, url, since) && !LosesAnswer(s, a, url)
    ensures Spaced(cfg, Step(pieces, cfg, s, a), url, since)
  {
    var key := Key(url, Refresh);
    var t := Step(pieces, cfg, s, a);
    hide Step, Inv;
    StepKeepsNewest(pieces, cfg, s, a, url);
    ClockNeverGoesBack(pieces, cfg, s, a);
    if !Touches(pieces, a, key) {
      OthersUntouched(pieces, cfg, s, a, key);
      if !a.Finish? {
        OnlyFinishWritesMemory(pieces, cfg, s, a);
      } else {
        OneLaneFinish(pieces, cfg, s, a.key, url);
      }
    } else if a.Finish? && s.clock < since + cfg.recheck {
      FinishSpaces(pieces, cfg, s, key, since);
    } else if !a.Finish? {
      TouchKeepsSpacing(pieces, cfg, s, a, url, since);
    }
  }

  lemma {:induction false} TouchKeepsSpacing(pieces: Pieces, cfg: Config, s: State, a: Action, url: Url, since: Instant)
    requires Inv(pieces, cfg, s) && Enabled(pieces, s, a) && Spaced(cfg, s, url, since) && !LosesAnswer(s, a, url)
    requires Touches(pieces, a, Key(url, Refresh)) && !a.Finish?
    ensures Spaced(cfg, Step(pieces, cfg, s, a), url, since)
  {
    hide RefreshAt, HostOf, Told, Check, AfterReply, Inv, FailureStands, Window;
    OnlyFinishWritesMemory(pieces, cfg, s, a);
  }

  /** A load that finishes is of a URL not in memory. */
  lemma {:induction false} OneLaneFinish(pieces: Pieces, cfg: Config, s: State, key: Key, url: Url)
    requires Inv(pieces, cfg, s) && Enabled(pieces, s, Finish(key)) && url in s.mem && key != Key(url, Refresh)
    ensures Step(pieces, cfg, s, Finish(key)).mem[url] == s.mem[url]
  {}

  lemma {:induction false} FinishSpaces(pieces: Pieces, cfg: Config, s: State, key: Key, since: Instant)
    requires Inv(pieces, cfg, s) && Enabled(pieces, s, Finish(key)) && key.lane.Refresh?
    requires since <= s.clock && Answered(s.ops[key].stage, since)
    ensures var t := Step(pieces, cfg, s, Finish(key));
      key !in t.ops && key.url in t.mem && t.mem[key.url].checkedAt >= since
  {}

  lemma {:induction false} SpacingLasts(pieces: Pieces, cfg: Config, states: seq<State>, actions: seq<Action>,
                                        i: nat, j: nat, url: Url, since: Instant)
    requires Run(pieces, cfg, states, actions) && i <= j <= |actions| && Spaced(cfg, states[i], url, since)
    requires forall k :: i <= k < j ==> !LosesAnswer(states[k], actions[k], url)
    ensures Spaced(cfg, states[j], url, since)
    decreases j
  {
    hide Run, Step, Spaced, LosesAnswer, Inv, Enabled;
    if i < j {
      SpacingLasts(pieces, cfg, states, actions, i, j - 1, url, since);
      RunStep(pieces, cfg, states, actions, j - 1);
      StepKeepsSpacing(pieces, cfg, states[j - 1], actions[j - 1], url, since);
    }
  }

  lemma {:induction false} RunStep(pieces: Pieces, cfg: Config, states: seq<State>, actions: seq<Action>, n: nat)
    requires Run(pieces, cfg, states, actions) && n < |actions|
    ensures Inv(pieces, cfg, states[n]) && Enabled(pieces, states[n], actions[n])
    ensures states[n + 1] == Step(pieces, cfg, states[n], actions[n])
  {
    hide Inv;
    RunKeepsInv(pieces, cfg, states, actions, n);
  }

  lemma {:induction false} SpacedAsk(pieces: Pieces, cfg: Config, s: State, a: Action, url: Url, since: Instant)
    requires Inv(pieces, cfg, s) && Enabled(pieces, s, a) && Spaced(cfg, s, url, since)
    requires AsksAbout(s, Step(pieces, cfg, s, a), url)
    ensures s.clock >= since + cfg.recheck
  {
    AskingSteps(pieces, cfg, s, a, url);
    assert OpOk(pieces, cfg, s, a.key, s.ops[a.key]);
    assert a.key == Key(url, Refresh);
  }

  /** A recorded failure of `url` stands until `until`. */
  predicate HoldsBack(cfg: Config, s: State, url: Url, until: Instant) {
    url in s.failed && s.failed[url].0 + StandsFor(cfg, s.failed[url].1) >= until
  }

  /** An answer was lost and nothing recorded stands in for it until `until`. */
  predicate LosesTrack(cfg: Config, s: State, t: State, a: Action, url: Url, until: Instant) {
    LosesAnswer(s, a, url) && !HoldsBack(cfg, t, url, until)
  }

  /**
   Refetches of one URL are at least `recheck` apart, from the end of one to
   the start of the next, however many callers there are and even when forced,
   unless the caller of the first vanished with the answer in hand and no
   recorded failure stands in its stead.
   */
  lemma {:induction false} RefetchesAreSpread(pieces: Pieces, cfg: Config, states: seq<State>, actions: seq<Action>,
                                              i: nat, j: nat, url: Url)
    requires Run(pieces, cfg, states, actions) && i < j < |actions|
    requires actions[i].Reply? && actions[i].key == Key(url, Refresh)
    requires AsksAbout(states[j], states[j + 1], url)
    ensures states[j].clock >= states[i].clock + cfg.recheck
         || exists k :: i < k < j && LosesTrack(cfg, states[k], states[k + 1], actions[k], url, states[i].clock + cfg.recheck)
  {
    hide Run, LosesAnswer, AsksAbout, Inv, Step, HoldsBack;
    if forall k :: i < k < j ==> !LosesAnswer(states[k], actions[k], url) {
      KeptAnswersSpread(pieces, cfg, states, actions, i, j, url);
    } else {
      var k :| i < k < j && LosesAnswer(states[k], actions[k], url);
      if !LosesTrack(cfg, states[k], states[k + 1], actions[k], url, states[i].clock + cfg.recheck) {
        LostButRecorded(pieces, cfg, states, actions, k, j, url, states[i].clock + cfg.recheck);
      }
    }
  }

  /** A lost answer that was recorded, and stands long enough, holds the next request back all the same. */
  lemma {:induction false} LostButRecorded(pieces: Pieces, cfg: Config, states: seq<State>, actions: seq<Action>,
                                           k: nat, j: nat, url: Url, until: Instant)
    requires Run(pieces, cfg, states, actions) && k < j < |actions| && LosesAnswer(states[k], actions[k], url)
    requires HoldsBack(cfg, states[k + 1], url, until) && AsksAbout(states[j], states[j + 1], url)
    ensures states[j].clock >= until
  {
    hide AsksAbout, Inv, StandsFor;
    var (since, failure) := states[k + 1].failed[url];
    RunStep(pieces, cfg, states, actions, k);
    CancelFreesUrl(pieces, cfg, states[k], Key(url, Refresh));
    RecordLasts(pieces, cfg, states, actions, k + 1, j, url, since, failure);
    RunStep(pieces, cfg, states, actions, j);
    AskingSteps(pieces, cfg, states[j], actions[j], url);
  }

  lemma {:induction false} CancelFreesUrl(pieces: Pieces, cfg: Config, s: State, key: Key)
    requires Inv(pieces, cfg, s) && Enabled(pieces, s, Cancel(key))
    ensures forall lane :: Key(key.url, lane) !in Step(pieces, cfg, s, Cancel(key)).ops
  {
    OneLane(pieces, cfg, s, key);
  }

  lemma {:induction false} KeptAnswersSpread(pieces: Pieces, cfg: Config, states: seq<State>, actions: seq<Action>,
                                             i: nat, j: nat, url: Url)
    requires Run(pieces, cfg, states, actions) && i < j < |actions|
    requires actions[i].Reply? && actions[i].key == Key(url, Refresh)
    requires AsksAbout(states[j], states[j + 1], url)
    requires forall k :: i < k < j ==> !LosesAnswer(states[k], actions[k], url)
    ensures states[j].clock >= states[i].clock + cfg.recheck
  {
    hide LosesAnswer, AsksAbout, Inv, Step, Spaced;
    RunKeepsInv(pieces, cfg, states, actions, i);
    ReplySpaces(pieces, cfg, states[i], actions[i]);
    SpacingLasts(pieces, cfg, states, actions, i + 1, j, url, states[i].clock);
    RunKeepsInv(pieces, cfg, states, actions, j);
    SpacedAsk(pieces, cfg, states[j], actions[j], url, states[i].clock);
  }

  // ------------------------------------------- from an entry to the next request

  /** `url` was last looked at `since` or later and is not being refreshed, or enough time has gone by. */
  predicate Looked(cfg: Config, s: State, url: Url, since: Instant) {
    && since <= s.clock
    && url in s.mem
    && (s.clock < since + cfg.recheck ==> Key(url, Refresh) !in s.ops && s.mem[url].checkedAt >= since)
  }

  lemma {:induction false} StepKeepsLooked(pieces: Pieces, cfg: Config, s: State, a: Action, url: Url, since: Instant)
    requires Inv(pieces, cfg, s) && Enabled(pieces, s, a) && Looked(cfg, s, url, since)
    ensures Looked(cfg, Step(pieces, cfg, s, a), url, since)
  {
    var key := Key(url, Refresh);
    StepKeepsNewest(pieces, cfg, s, a, url);
    ClockNeverGoesBack(pieces, cfg, s, a);
    if s.clock < since + cfg.recheck {
      if !Touches(pieces, a, key) {
        OthersUntouched(pieces, cfg, s, a, key);
      }
      if a.Finish? {
        OneLaneFinish(pieces, cfg, s, a.key, url);
      } else {
        OnlyFinishWritesMemory(pieces, cfg, s, a);
      }
    }
  }

  lemma {:induction false} LookLasts(pieces: Pieces, cfg: Config, states: seq<State>, actions: seq<Action>,
                                     i: nat, j: nat, url: Url, since: Instant)
    requires Run(pieces, cfg, states, actions) && i <= j <= |actions| && Looked(cfg, states[i], url, since)
    ensures Looked(cfg, states[j], url, since)
    decreases j
  {
    hide Step, Looked, Inv, Enabled;
    if i < j {
      LookLasts(pieces, cfg, states, actions, i, j - 1, url, since);
      RunKeepsInv(pieces, cfg, states, actions, j - 1);
      StepKeepsLooked(pieces, cfg, states[j - 1], actions[j - 1], url, since);
    }
  }

  /**
   From any moment at which a URL is in memory and not being refreshed, the next
   request about it comes no earlier than `recheck` after its entry was last
   looked at. Callers may vanish.
   */
  lemma {:induction false} EntryHoldsBackRequests(pieces: Pieces, cfg: Config, states: seq<State>, actions: seq<Action>,
                                                  i: nat, j: nat, url: Url)
    requires Run(pieces, cfg, states, actions) && i <= j < |actions|
    requires url in states[i].mem && Key(url, Refresh) !in states[i].ops
    requires AsksAbout(states[j], states[j + 1], url)
    ensures states[j].clock >= states[i].mem[url].checkedAt + cfg.recheck
  {
    var since := states[i].mem[url].checkedAt;
    RunKeepsInv(pieces, cfg, states, actions, i);
    LookLasts(pieces, cfg, states, actions, i, j, url, since);
    RunKeepsInv(pieces, cfg, states, actions, j);
    LookedAsk(pieces, cfg, states[j], actions[j], url, since);
  }

  lemma {:induction false} LookedAsk(pieces: Pieces, cfg: Config, s: State, a: Action, url: Url, since: Instant)
    requires Inv(pieces, cfg, s) && Enabled(pieces, s, a) && Looked(cfg, s, url, since)
    requires AsksAbout(s, Step(pieces, cfg, s, a), url)
    ensures s.clock >= since + cfg.recheck
  {
    AskingSteps(pieces, cfg, s, a, url);
    assert OpOk(pieces, cfg, s, a.key, s.ops[a.key]);
    assert a.key == Key(url, Refresh);
  }

  /** After a load or a refresh has finished, the next request waits `recheck` from when the entry it left was looked at. */
  lemma {:induction false} NextRequestAfterFinish(pieces: Pieces, cfg: Config, states: seq<State>, actions: seq<Action>,
                                                  i: nat, j: nat, key: Key)
    requires Run(pieces, cfg, states, actions) && i < j < |actions| && actions[i] == Finish(key)
    requires key.url in states[i + 1].mem && AsksAbout(states[j], states[j + 1], key.url)
    ensures states[j].clock >= states[i + 1].mem[key.url].checkedAt + cfg.recheck
  {
    RunKeepsInv(pieces, cfg, states, actions, i);
    OneLane(pieces, cfg, states[i], key);
    EntryHoldsBackRequests(pieces, cfg, states, actions, i + 1, j, key.url);
  }

  predicate Ends(a: Action, key: Key) {
    a == Finish(key) || a == Cancel(key)
  }

  /** What became of the answer `stage` of an operation that has not ended: the same, or recorded. */
  predicate StillAnswer(stage: Stage, now: Stage) {
    now == stage || (stage.Recording? && now == Done(Err(stage.failure)))
  }

  lemma {:induction false} StepKeepsAnswer(pieces: Pieces, cfg: Config, s: State, a: Action, key: Key, stage: Stage)
    requires Enabled(pieces, s, a) && key in s.ops && !Ends(a, key)
    requires (stage.Recording? || stage.Done?) && StillAnswer(stage, s.ops[key].stage)
    ensures var t := Step(pieces, cfg, s, a);
      key in t.ops && t.ops[key].kept == s.ops[key].kept && StillAnswer(stage, t.ops[key].stage)
  {
    if !Touches(pieces, a, key) {
      OthersUntouched(pieces, cfg, s, a, key);
    }
  }

  /** Until an operation ends, it keeps its answer and what it falls back on. */
  lemma {:induction false} AnswerStays(pieces: Pieces, cfg: Config, states: seq<State>, actions: seq<Action>,
                                       r: nat, k: nat, key: Key)
    requires Run(pieces, cfg, states, actions) && r < k <= |actions| && actions[r].Reply? && actions[r].key == key
    requires forall m :: r < m < k ==> !Ends(actions[m], key)
    ensures key in states[r].ops && key in states[r + 1].ops && key in states[k].ops
    ensures states[k].ops[key].kept == states[r].ops[key].kept
    ensures StillAnswer(states[r + 1].ops[key].stage, states[k].ops[key].stage)
    decreases k
  {
    if r + 1 < k {
      AnswerStays(pieces, cfg, states, actions, r, k - 1, key);
      ReplyAnswers(pieces, cfg, states[r], actions[r]);
      StepKeepsAnswer(pieces, cfg, states[k - 1], actions[k - 1], key, states[r + 1].ops[key].stage);
    }
  }

  lemma {:induction false} ReplyAnswers(pieces: Pieces, cfg: Config, s: State, a: Action)
    requires Enabled(pieces, s, a) && a.Reply?
    ensures var stage := Step(pieces, cfg, s, a).ops[a.key].stage;
      && (stage.Recording? || stage.Done?)
      && (stage.Done? && stage.outcome.Ok? ==> stage.outcome.value.checkedAt == s.clock)
  {
    hide RefreshAt, HostOf, Told, PauseOf;
  }

  /** A finished operation that got a copy keeps it, unless what it falls back on is newer. */
  predicate KeepsFetched(op: Op)
    requires op.stage.Done?
  {
    op.stage.outcome.Ok? && (op.kept.Some? ==> op.stage.outcome.value.dates.NotOlderThan(op.kept.value.dates))
  }

  predicate CountsFromReply(op: Op, replied: Instant)
    requires op.stage.Done?
  {
    KeepsFetched(op) || (op.kept.Some? && op.kept.value.checkedAt == replied)
  }

  /**
   From where the interval after a load counts. It counts from the reply to the
   load's own request if and only if the fetched copy is the one kept (or no
   time had passed since the disk was read); else from the reading of the disk.
   */
  lemma {:induction false} LoadCountsFromItsReply(pieces: Pieces, cfg: Config, states: seq<State>, actions: seq<Action>,
                                                  r: nat, i: nat, url: Url)
    requires Run(pieces, cfg, states, actions) && r < i < |actions|
    requires actions[r].Reply? && actions[r].key == Key(url, Load) && actions[i] == Finish(Key(url, Load))
    requires forall m :: r < m < i ==> !Ends(actions[m], Key(url, Load))
    ensures var op := states[i].ops[Key(url, Load)];
      && (url in states[i + 1].mem <==> op.stage.outcome.Ok? || op.kept.Some?)
      && (url in states[i + 1].mem ==>
            && states[i + 1].mem[url].checkedAt <= states[r].clock
            && (states[i + 1].mem[url].checkedAt == states[r].clock <==> CountsFromReply(op, states[r].clock)))
  {
    var key := Key(url, Load);
    RunKeepsInv(pieces, cfg, states, actions, r);
    assert OpOk(pieces, cfg, states[r], key, states[r].ops[key]);
    AnswerStays(pieces, cfg, states, actions, r, i, key);
    ReplyAnswers(pieces, cfg, states[r], actions[r]);
    RunKeepsInv(pieces, cfg, states, actions, i);
    LoadCountsFromTheCopyItKeeps(pieces, cfg, states[i], key, states[r].clock);
  }

  /** Under that condition the promise holds for the load's own request: the next one waits `recheck` from its reply. */
  lemma {:induction false} NextRequestAfterLoadReply(pieces: Pieces, cfg: Config, states: seq<State>, actions: seq<Action>,
                                                     r: nat, i: nat, j: nat, url: Url)
    requires Run(pieces, cfg, states, actions) && r < i < j < |actions|
    requires actions[r].Reply? && actions[r].key == Key(url, Load) && actions[i] == Finish(Key(url, Load))
    requires forall m :: r < m < i ==> !Ends(actions[m], Key(url, Load))
    requires url in states[i + 1].mem && AsksAbout(states[j], states[j + 1], url)
    ensures var op := states[i].ops[Key(url, Load)];
      CountsFromReply(op, states[r].clock) ==> states[j].clock >= states[r].clock + cfg.recheck
  {
    hide AsksAbout, Step;
    LoadCountsFromItsReply(pieces, cfg, states, actions, r, i, url);
    NextRequestAfterFinish(pieces, cfg, states, actions, i, j, Key(url, Load));
  }

  /**
   After the first load the interval counts from when the entry was read: the
   reply, when the fetched copy is kept, but the earlier reading of the disk
   when it is not. A refetch can then follow the load's own fetch sooner than
   `recheck`, by as long as that fetch took.
   */
  lemma {:induction false} LoadCountsFromTheCopyItKeeps(pieces: Pieces, cfg: Config, s: State, key: Key, replied: Instant)
    requires Inv(pieces, cfg, s) && Enabled(pieces, s, Finish(key)) && key.lane.Load?
    requires s.ops[key].stage.outcome.Ok? ==> s.ops[key].stage.outcome.value.checkedAt == replied
    ensures var t := Step(pieces, cfg, s, Finish(key));
      var op := s.ops[key];
      var keepsDisk := op.kept.Some? && (op.stage.outcome.Err? || !op.stage.outcome.value.dates.NotOlderThan(op.kept.value.dates));
      && (key.url in t.mem <==> op.stage.outcome.Ok? || op.kept.Some?)
      && (key.url in t.mem ==> t.mem[key.url].checkedAt == if keepsDisk then op.kept.value.checkedAt else replied)
  {
    assert OpOk(pieces, cfg, s, key, s.ops[key]);
  }

  // --------------------------------------------------- failures and their answers

  /** While a failure stands, a fetch answers it: nothing is asked, counted or recorded. */
  lemma {:induction false} StandingFailureIsRepeated(pieces: Pieces, cfg: Config, s: State, key: Key)
    requires Enabled(pieces, s, CheckFailed(key)) && cfg.online && FailureStands(cfg, s, key.url)
    ensures var t := Step(pieces, cfg, s, CheckFailed(key));
      && t.ops[key].stage == Done(Err(s.failed[key.url].1))
      && t.hosts == s.hosts && t.failed == s.failed && t.mem == s.mem
      && !AsksAbout(s, t, key.url)
  {
    var t := Step(pieces, cfg, s, CheckFailed(key));
    if AsksAbout(s, t, key.url) {
      AskingSteps(pieces, cfg, s, CheckFailed(key), key.url);
    }
  }

  /** No request about a URL goes out while its recorded failure stands. */
  lemma {:induction false} NoAskWhileAFailureStands(pieces: Pieces, cfg: Config, states: seq<State>,
                                                    actions: seq<Action>, j: nat, url: Url)
    requires Run(pieces, cfg, states, actions) && j < |actions|
    requires AsksAbout(states[j], states[j + 1], url)
    ensures cfg.online && !FailureStands(cfg, states[j], url)
  {
    RunKeepsInv(pieces, cfg, states, actions, j);
    AskingSteps(pieces, cfg, states[j], actions[j], url);
    assert OpOk(pieces, cfg, states[j], actions[j].key, states[j].ops[actions[j].key]);
  }

  /** The failure recorded at `since` is still the recorded one, or no longer stands. */
  predicate StillRecorded(cfg: Config, s: State, url: Url, since: Instant, failure: Failure) {
    s.clock < since + StandsFor(cfg, failure) ==>
      && url in s.failed && s.failed[url] == (since, failure)
      && forall lane :: Key(url, lane) in s.ops ==> !PastGate(s.ops[Key(url, lane)].stage) && !s.ops[Key(url, lane)].stage.Recording?
  }

  lemma {:induction false} RecordingStarts(pieces: Pieces, cfg: Config, s: State, key: Key)
    requires Inv(pieces, cfg, s) && Enabled(pieces, s, Record(key))
    ensures StillRecorded(cfg, Step(pieces, cfg, s, Record(key)), key.url, s.clock, s.ops[key].stage.failure)
  {}

  lemma {:induction false} RecordStays(pieces: Pieces, cfg: Config, s: State, a: Action, url: Url)
    requires Enabled(pieces, s, a) && url in s.failed && !(a.Record? && a.key.url == url)
    ensures var t := Step(pieces, cfg, s, a); url in t.failed && t.failed[url] == s.failed[url]
  {
    hide RefreshAt, HostOf, AfterReply, Told, Check, Due, FailureStands, Window;
  }

  lemma {:induction false} TouchedStaysBack(pieces: Pieces, cfg: Config, s: State, a: Action, key: Key)
    requires Inv(pieces, cfg, s) && Enabled(pieces, s, a) && FailureStands(cfg, s, key.url) && Touches(pieces, a, key)
    requires key in s.ops ==> !PastGate(s.ops[key].stage) && !s.ops[key].stage.Recording?
    requires key in Step(pieces, cfg, s, a).ops
    ensures var stage := Step(pieces, cfg, s, a).ops[key].stage; !PastGate(stage) && !stage.Recording?
  {
    hide RefreshAt, HostOf, AfterReply, Told, Check, Due, StandsFor, Inv, Window;
  }

  lemma {:induction false} StepKeepsRecorded(pieces: Pieces, cfg: Config, s: State, a: Action, url: Url,
                                             since: Instant, failure: Failure)
    requires Inv(pieces, cfg, s) && Enabled(pieces, s, a) && StillRecorded(cfg, s, url, since, failure)
    ensures StillRecorded(cfg, Step(pieces, cfg, s, a), url, since, failure)
  {
    var t := Step(pieces, cfg, s, a);
    ClockNeverGoesBack(pieces, cfg, s, a);
    hide Step, StandsFor, Inv;
    if t.clock < since + StandsFor(cfg, failure) {
      RecordStays(pieces, cfg, s, a, url);
      forall lane | Key(url, lane) in t.ops
        ensures !PastGate(t.ops[Key(url, lane)].stage) && !t.ops[Key(url, lane)].stage.Recording?
      {
        if !Touches(pieces, a, Key(url, lane)) {
          OthersUntouched(pieces, cfg, s, a, Key(url, lane));
        } else {
          TouchedStaysBack(pieces, cfg, s, a, Key(url, lane));
        }
      }
    }
  }

  lemma {:induction false} RecordLasts(pieces: Pieces, cfg: Config, states: seq<State>, actions: seq<Action>,
                                       i: nat, j: nat, url: Url, since: Instant, failure: Failure)
    requires Run(pieces, cfg, states, actions) && i <= j <= |actions| && StillRecorded(cfg, states[i], url, since, failure)
    ensures StillRecorded(cfg, states[j], url, since, failure)
    decreases j
  {
    hide Step, StillRecorded, Inv, Enabled;
    if i < j {
      RecordLasts(pieces, cfg, states, actions, i, j - 1, url, since, failure);
      RunKeepsInv(pieces, cfg, states, actions, j - 1);
      StepKeepsRecorded(pieces, cfg, states[j - 1], actions[j - 1], url, since, failure);
    }
  }

  /** After a failure is recorded, the upstream is left alone about that URL for as long as it stands. */
  lemma {:induction false} FailuresHoldBackRequests(pieces: Pieces, cfg: Config, states: seq<State>,
                                                    actions: seq<Action>, i: nat, j: nat, key: Key)
    requires Run(pieces, cfg, states, actions) && i < j < |actions| && actions[i] == Record(key)
    requires AsksAbout(states[j], states[j + 1], key.url)
    ensures states[i].ops[key].stage.Recording?
    ensures states[j].clock >= states[i].clock + StandsFor(cfg, states[i].ops[key].stage.failure)
  {
    var failure := states[i].ops[key].stage.failure;
    RunKeepsInv(pieces, cfg, states, actions, i);
    RecordingStarts(pieces, cfg, states[i], key);
    RecordLasts(pieces, cfg, states, actions, i + 1, j, key.url, states[i].clock, failure);
    RunKeepsInv(pieces, cfg, states, actions, j);
    AskingSteps(pieces, cfg, states[j], actions[j], key.url);
  }

  /**
   Until a recorded failure has stood its time, every fetch of the URL answers that
   very failure, with nothing asked, counted or recorded.
   */
  lemma {:induction false} RecordedFailureIsAnswered(pieces: Pieces, cfg: Config, states: seq<State>, actions: seq<Action>,
                                                     i: nat, j: nat, key: Key, other: Key)
    requires Run(pieces, cfg, states, actions) && i < j < |actions| && actions[i] == Record(key)
    requires actions[j] == CheckFailed(other) && other.url == key.url
    ensures states[i].ops[key].stage.Recording? && other in states[j + 1].ops
    ensures var failure := states[i].ops[key].stage.failure;
      states[j].clock < states[i].clock + StandsFor(cfg, failure) ==>
        && states[j + 1].ops[other].stage == Done(Err(failure))
        && states[j + 1].hosts == states[j].hosts && states[j + 1].failed == states[j].failed && states[j + 1].mem == states[j].mem
        && !AsksAbout(states[j], states[j + 1], key.url)
  {
    hide Inv, StandsFor, AsksAbout;
    RunStep(pieces, cfg, states, actions, i);
    RunStep(pieces, cfg, states, actions, j);
    var failure := states[i].ops[key].stage.failure;
    RecordingStarts(pieces, cfg, states[i], key);
    RecordLasts(pieces, cfg, states, actions, i + 1, j, key.url, states[i].clock, failure);
    OnlineRecords(pieces, cfg, states[i], key);
    if states[j].clock < states[i].clock + StandsFor(cfg, failure) {
      StandingFailureIsRepeated(pieces, cfg, states[j], other);
    }
  }

  lemma {:induction false} OnlineRecords(pieces: Pieces, cfg: Config, s: State, key: Key)
    requires Inv(pieces, cfg, s) && Enabled(pieces, s, Record(key))
    ensures cfg.online
  {
    assert OpOk(pieces, cfg, s, key, s.ops[key]);
  }

  /** The vendor's word that it does not publish a piece is taken for `recheck`, request by request. */
  lemma {:induction false} NotPublishedIsWaitedOut(pieces: Pieces, cfg: Config, states: seq<State>, actions: seq<Action>,
                                                   i: nat, j: nat, key: Key)
    requires Run(pieces, cfg, states, actions) && i < j < |actions| && actions[i] == Record(key)
    requires key in states[i].ops && states[i].ops[key].stage.Recording? && states[i].ops[key].stage.failure.NotPublished?
    ensures AsksAbout(states[j], states[j + 1], key.url) ==> states[j].clock >= states[i].clock + cfg.recheck
    ensures actions[j].CheckFailed? && actions[j].key.url == key.url && states[j].clock < states[i].clock + cfg.recheck ==>
      && actions[j].key in states[j + 1].ops
      && states[j + 1].ops[actions[j].key].stage == Done(Err(states[i].ops[key].stage.failure))
  {
    hide AsksAbout, Run;
    if AsksAbout(states[j], states[j + 1], key.url) {
      FailuresHoldBackRequests(pieces, cfg, states, actions, i, j, key);
    }
    if actions[j].CheckFailed? && actions[j].key.url == key.url {
      RecordedFailureIsAnswered(pieces, cfg, states, actions, i, j, key, actions[j].key);
    }
  }

  /** No status for a network error; a 5xx, 408 or 429. */
  predicate IsDown(status: Option<nat>) {
    status.None? || status.value >= 500 || status.value in {408, 429}
  }

  /**
   Which replies are recorded: exactly an outage (a network error, a 5xx, 408
   or 429) and the vendor's own word that it does not publish the piece.
   */
  lemma {:induction false} RepliesRecorded(pieces: Pieces, cfg: Config, s: State, key: Key,
                                           direct: bool, answer: Result<Copy, HttpError>, random: U64)
    requires Enabled(pieces, s, Reply(key, direct, answer, random))
    ensures var after := Step(pieces, cfg, s, Reply(key, direct, answer, random)).ops[key].stage;
      && (after.Recording? <==> answer.Err? && (IsDown(answer.error.status) || SaysNotPublished(pieces, s.ops[key].id, direct, answer)))
      && (after.Recording? ==> (after.failure.NotPublished? <==> SaysNotPublished(pieces, s.ops[key].id, direct, answer)))
      && (after.Done? && after.outcome.Ok? <==> answer.Ok? && pieces.verify(s.ops[key].id, answer.value).Some?)
  {
    hide RefreshAt, HostOf;
  }

  // ------------------------------------------------- where "not published" is from

  /** Before step `n`, the vendor itself answered 404, 410 or 400 about a piece at `url` that the evidence names. */
  ghost predicate VendorDenied(pieces: Pieces, states: seq<State>, actions: seq<Action>, n: nat, url: Url)
    requires |states| == |actions| + 1 && n <= |actions|
  {
    exists i :: 0 <= i < n && Denies(pieces, states[i], actions[i], url)
  }

  predicate Denies(pieces: Pieces, s: State, a: Action, url: Url) {
    && a.Reply? && a.key.url == url && a.key in s.ops
    && a.direct && a.answer.Err?
    && pieces.namedByEvidence(s.ops[a.key].id)
    && a.answer.error.status in {Some(404), Some(410), Some(400)}
  }

  /** "Not published" is about to be, is, or was just answered for `url`. */
  predicate SaysDenied(s: State, url: Url) {
    || (url in s.failed && s.failed[url].1.NotPublished?)
    || exists lane :: Key(url, lane) in s.ops && DeniedStage(s.ops[Key(url, lane)].stage)
  }

  predicate DeniedStage(stage: Stage) {
    match stage
    case Recording(failure) => failure.NotPublished?
    case Done(outcome) => outcome.Err? && outcome.error.NotPublished?
    case _ => false
  }

  lemma {:induction false} ReplyTurnsDenied(pieces: Pieces, cfg: Config, s: State, a: Action)
    requires Enabled(pieces, s, a) && a.Reply? && DeniedStage(Step(pieces, cfg, s, a).ops[a.key].stage)
    ensures Denies(pieces, s, a, a.key.url)
  {
    hide RefreshAt, HostOf, PauseOf;
  }

  lemma {:induction false} OthersTurnNothing(pieces: Pieces, cfg: Config, s: State, a: Action, key: Key)
    requires Enabled(pieces, s, a) && Touches(pieces, a, key) && !a.Reply?
    requires !(key.url in s.failed && s.failed[key.url].1.NotPublished?)
    requires var t := Step(pieces, cfg, s, a); key in t.ops && DeniedStage(t.ops[key].stage)
    ensures key in s.ops && DeniedStage(s.ops[key].stage)
  {
    hide RefreshAt, HostOf, Check, Due, StandsFor;
  }

  /** An operation comes to say so by the vendor's reply, or by reading it from the record. */
  lemma {:induction false} StageTurnsDenied(pieces: Pieces, cfg: Config, s: State, a: Action, key: Key)
    requires Enabled(pieces, s, a)
    requires var t := Step(pieces, cfg, s, a); key in t.ops && DeniedStage(t.ops[key].stage)
    requires !(key in s.ops && DeniedStage(s.ops[key].stage))
    requires !(key.url in s.failed && s.failed[key.url].1.NotPublished?)
    ensures Denies(pieces, s, a, key.url)
  {
    hide Step, DeniedStage, Enabled, Denies;
    if !Touches(pieces, a, key) {
      OthersUntouched(pieces, cfg, s, a, key);
    } else if a.Reply? {
      ReplyTurnsDenied(pieces, cfg, s, a);
    } else {
      OthersTurnNothing(pieces, cfg, s, a, key);
    }
  }

  lemma {:induction false} RecordTurnsDenied(pieces: Pieces, cfg: Config, s: State, a: Action, url: Url)
    requires Enabled(pieces, s, a)
    requires var t := Step(pieces, cfg, s, a); url in t.failed && t.failed[url].1.NotPublished?
    ensures SaysDenied(s, url)
  {}

  lemma {:induction false} NotPublishedStep(pieces: Pieces, cfg: Config, s: State, a: Action, url: Url)
    requires Enabled(pieces, s, a) && SaysDenied(Step(pieces, cfg, s, a), url) && !SaysDenied(s, url)
    ensures Denies(pieces, s, a, url)
  {
    var t := Step(pieces, cfg, s, a);
    if lane :| Key(url, lane) in t.ops && DeniedStage(t.ops[Key(url, lane)].stage) {
      StageTurnsDenied(pieces, cfg, s, a, Key(url, lane));
    } else {
      RecordTurnsDenied(pieces, cfg, s, a, url);
      assert false;
    }
  }

  /** Negative answers are sound: "not published" only ever repeats the vendor's own word. */
  lemma {:induction false} NotPublishedIsTheVendorsWord(pieces: Pieces, cfg: Config, states: seq<State>,
                                                        actions: seq<Action>,
                                                        n: nat, url: Url)
    requires Run(pieces, cfg, states, actions) && n <= |actions| && SaysDenied(states[n], url)
    ensures VendorDenied(pieces, states, actions, n, url)
  {
    if n > 0 {
      if SaysDenied(states[n - 1], url) {
        NotPublishedIsTheVendorsWord(pieces, cfg, states, actions, n - 1, url);
      } else {
        NotPublishedStep(pieces, cfg, states[n - 1], actions[n - 1], url);
      }
    }
  }
}
