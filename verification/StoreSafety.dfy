/**
 What holds in every run of the store, whatever the disk holds, whatever the
 upstream answers, and however callers are interleaved.
 */
module StoreSafety {
  import opened Prelude
  import opened CollateralDates
  import opened StoreSteps

  // ------------------------------------------------------------ the invariant

  predicate VerifiedFor(pieces: Pieces, id: Id, e: Entry) {
    pieces.verify(id, e.copy) == Some(e.dates)
  }

  /** The entry verified as some piece published at `url`; two ids can share a URL. */
  ghost predicate VerifiedAt(pieces: Pieces, url: Url, e: Entry) {
    exists id :: pieces.url(id) == url && VerifiedFor(pieces, id, e)
  }

  ghost predicate EntryOk(pieces: Pieces, clock: Instant, url: Url, e: Entry) {
    VerifiedAt(pieces, url, e) && e.checkedAt <= clock
  }

  /** Past the gate: the upstream may be asked. */
  predicate PastGate(stage: Stage) {
    stage.AtPause? || stage.AtAdmit? || stage.Asking?
  }

  /** The lock of a lane is held only while memory is in the state that lane works on. */
  predicate LaneOk(s: State, key: Key, op: Op) {
    match key.lane
    case Load => key.url !in s.mem
    case Refresh => key.url in s.mem && op.kept == Some(s.mem[key.url])
  }

  ghost predicate OpOk(pieces: Pieces, cfg: Config, s: State, key: Key, op: Op) {
    && key.url == pieces.url(op.id)
    && LaneOk(s, key, op)
    && (op.kept.Some? ==> EntryOk(pieces, s.clock, key.url, op.kept.value))
    && (op.stage.Done? && op.stage.outcome.Ok? ==>
         VerifiedFor(pieces, op.id, op.stage.outcome.value) && op.stage.outcome.value.checkedAt <= s.clock)
    && (PastGate(op.stage) ==> !FailureStands(cfg, s, key.url))
    && (PastGate(op.stage) || op.stage.Recording? ==> cfg.online)
    && (op.stage.AtAdmit? ==> IsCold(key, op))
  }

  ghost predicate Inv(pieces: Pieces, cfg: Config, s: State) {
    && (forall url :: url in s.mem ==> EntryOk(pieces, s.clock, url, s.mem[url]))
    && (forall key :: key in s.ops ==> OpOk(pieces, cfg, s, key, s.ops[key]))
    && (forall url :: url in s.failed ==> s.failed[url].0 <= s.clock)
  }

  /** No URL is loaded and refreshed at once. */
  lemma {:induction false} OneLane(pieces: Pieces, cfg: Config, s: State, key: Key)
    requires Inv(pieces, cfg, s) && key in s.ops
    ensures forall k :: k in s.ops && k.url == key.url ==> k == key
  {
    forall k | k in s.ops && k.url == key.url ensures k == key {
      assert OpOk(pieces, cfg, s, k, s.ops[k]) && OpOk(pieces, cfg, s, key, s.ops[key]);
    }
  }

  /** A step that only moves one operation on keeps the invariant when that operation stays good. */
  lemma {:induction false} MoveKeepsInv(pieces: Pieces, cfg: Config, s: State, t: State, key: Key, op: Op)
    requires Inv(pieces, cfg, s)
    requires t.clock == s.clock && t.mem == s.mem && t.failed == s.failed && t.ops == s.ops[key := op]
    requires OpOk(pieces, cfg, s, key, op)
    ensures Inv(pieces, cfg, t)
  {}

  lemma {:induction false} TickKeepsInv(pieces: Pieces, cfg: Config, s: State, elapsed: nat)
    requires Inv(pieces, cfg, s)
    ensures Inv(pieces, cfg, s.(clock := s.clock + elapsed))
  {}

  lemma {:induction false} RecordKeepsInv(pieces: Pieces, cfg: Config, s: State, key: Key)
    requires Inv(pieces, cfg, s) && key in s.ops && s.ops[key].stage.Recording?
    ensures Inv(pieces, cfg, RecordStep(s, key))
  {}

  lemma {:induction false} OutcomeOk(pieces: Pieces, cfg: Config, s: State, key: Key, op: Op)
    requires OpOk(pieces, cfg, s, key, op) && op.stage.Done?
    ensures Outcome(key, op, s.clock).Some? ==> EntryOk(pieces, s.clock, key.url, Outcome(key, op, s.clock).value)
  {}

  lemma {:induction false} FinishKeepsInv(pieces: Pieces, cfg: Config, s: State, key: Key)
    requires Inv(pieces, cfg, s) && key in s.ops && s.ops[key].stage.Done?
    ensures Inv(pieces, cfg, FinishStep(s, key))
  {
    var t := FinishStep(s, key);
    OutcomeOk(pieces, cfg, s, key, s.ops[key]);
    OneLane(pieces, cfg, s, key);
    forall k | k in t.ops ensures OpOk(pieces, cfg, t, k, t.ops[k]) {
      assert OpOk(pieces, cfg, s, k, s.ops[k]);
    }
  }

  lemma {:induction false} StartKeepsInv(pieces: Pieces, cfg: Config, s: State, a: Action)
    requires Inv(pieces, cfg, s) && Enabled(pieces, s, a) && (a.StartLoad? || a.StartRefresh?)
    ensures Inv(pieces, cfg, Step(pieces, cfg, s, a))
  {
    hide RefreshAt, Due;
    var t := Step(pieces, cfg, s, a);
    if a.StartLoad? {
      var key := Key(pieces.url(a.id), Load);
      var op := t.ops[key];
      if op.kept.Some? {
        assert VerifiedFor(pieces, a.id, op.kept.value);
      }
      MoveKeepsInv(pieces, cfg, s, t, key, op);
    } else if t != s {
      var key := Key(pieces.url(a.id), Refresh);
      MoveKeepsInv(pieces, cfg, s, t, key, t.ops[key]);
    }
  }

  lemma {:induction false} CheckFailedKeepsInv(pieces: Pieces, cfg: Config, s: State, key: Key)
    requires Inv(pieces, cfg, s) && At(s, key, AtFailed)
    ensures Inv(pieces, cfg, CheckFailedStep(cfg, s, key))
  {
    var t := CheckFailedStep(cfg, s, key);
    assert OpOk(pieces, cfg, s, key, s.ops[key]);
    MoveKeepsInv(pieces, cfg, s, t, key, t.ops[key]);
  }

  lemma {:induction false} CheckPauseKeepsInv(pieces: Pieces, cfg: Config, s: State, key: Key)
    requires Inv(pieces, cfg, s) && At(s, key, AtPause)
    ensures Inv(pieces, cfg, CheckPauseStep(s, key))
  {
    var t := CheckPauseStep(s, key);
    assert OpOk(pieces, cfg, s, key, s.ops[key]);
    MoveKeepsInv(pieces, cfg, s, t, key, t.ops[key]);
  }

  lemma {:induction false} AdmitKeepsInv(pieces: Pieces, cfg: Config, s: State, key: Key)
    requires Inv(pieces, cfg, s) && At(s, key, AtAdmit)
    ensures Inv(pieces, cfg, AdmitStep(s, key))
  {}

  lemma {:induction false} ReplyKeepsInv(pieces: Pieces, cfg: Config, s: State, key: Key, direct: bool,
                                         answer: Result<Copy, HttpError>, random: U64)
    requires Inv(pieces, cfg, s) && At(s, key, Asking)
    ensures Inv(pieces, cfg, ReplyStep(pieces, cfg, s, key, direct, answer, random))
  {
    var op := s.ops[key];
    assert OpOk(pieces, cfg, s, key, op);
    var stage := AfterReply(pieces, op.id, direct, Told(cfg, direct, answer), random, s.clock);
    AfterReplyIsVerified(pieces, op.id, direct, Told(cfg, direct, answer), random, s.clock);
    MoveKeepsInv(pieces, cfg, s, ReplyStep(pieces, cfg, s, key, direct, answer, random), key, op.(stage := stage));
  }

  lemma {:induction false} CancelKeepsInv(pieces: Pieces, cfg: Config, s: State, key: Key)
    requires Inv(pieces, cfg, s) && key in s.ops
    ensures Inv(pieces, cfg, CancelStep(s, key))
  {
    var t := CancelStep(s, key);
    forall k | k in t.ops ensures OpOk(pieces, cfg, t, k, t.ops[k]) {
      assert OpOk(pieces, cfg, s, k, s.ops[k]);
    }
  }

  lemma {:induction false} AfterReplyIsVerified(pieces: Pieces, id: Id, direct: bool, answer: Result<Copy,
                                                HttpError>, random: U64, clock: Instant)
    ensures var stage := AfterReply(pieces, id, direct, answer, random, clock);
      && !PastGate(stage)
      && (stage.Done? && stage.outcome.Ok? ==> VerifiedFor(pieces, id, stage.outcome.value) && stage.outcome.value.checkedAt == clock)
  {}

  lemma {:induction false} StepKeepsInv(pieces: Pieces, cfg: Config, s: State, a: Action)
    requires Inv(pieces, cfg, s) && Enabled(pieces, s, a)
    ensures Inv(pieces, cfg, Step(pieces, cfg, s, a))
  {
    match a {
      case Tick(elapsed) => TickKeepsInv(pieces, cfg, s, elapsed);
      case Record(key) => RecordKeepsInv(pieces, cfg, s, key);
      case Finish(key) => FinishKeepsInv(pieces, cfg, s, key);
      case StartLoad(_, _, _, _) => StartKeepsInv(pieces, cfg, s, a);
      case StartRefresh(_, _, _) => StartKeepsInv(pieces, cfg, s, a);
      case Reply(key, direct, answer, random) => ReplyKeepsInv(pieces, cfg, s, key, direct, answer, random);
      case CheckFailed(key) => CheckFailedKeepsInv(pieces, cfg, s, key);
      case CheckPause(key) => CheckPauseKeepsInv(pieces, cfg, s, key);
      case Admit(key) => AdmitKeepsInv(pieces, cfg, s, key);
      case Cancel(key) => CancelKeepsInv(pieces, cfg, s, key);
    }
  }

  lemma {:induction false} RunKeepsInv(pieces: Pieces, cfg: Config, states: seq<State>, actions: seq<Action>, n: nat)
    requires Run(pieces, cfg, states, actions) && n <= |actions|
    ensures Inv(pieces, cfg, states[n])
  {
    if n > 0 {
      RunKeepsInv(pieces, cfg, states, actions, n - 1);
      StepKeepsInv(pieces, cfg, states[n - 1], actions[n - 1]);
    }
  }

  // ----------------------------------------------------------- memory is sound

  /** At any moment of any run, every entry of memory verified as a piece its URL is for. */
  lemma {:induction false} MemoryIsVerified(pieces: Pieces, cfg: Config, states: seq<State>, actions: seq<Action>,
                                            n: nat, url: Url)
    requires Run(pieces, cfg, states, actions) && n <= |actions| && url in states[n].mem
    ensures VerifiedAt(pieces, url, states[n].mem[url])
  {
    RunKeepsInv(pieces, cfg, states, actions, n);
  }

  /** `b` is `a`, possibly looked at later. */
  predicate SameCopy(a: Entry, b: Entry) {
    a.(checkedAt := b.checkedAt) == b && a.checkedAt <= b.checkedAt
  }

  /**
   What one step can do to a kept entry: nothing but note a later look, or
   replace it by a copy that verified for the id asked and is not older.
   */
  lemma {:induction false} StepKeepsNewest(pieces: Pieces, cfg: Config, s: State, a: Action, url: Url)
    requires Inv(pieces, cfg, s) && Enabled(pieces, s, a) && url in s.mem
    ensures var t := Step(pieces, cfg, s, a);
      && url in t.mem
      && t.mem[url].dates.NotOlderThan(s.mem[url].dates)
      && (SameCopy(s.mem[url], t.mem[url]) ||
          (a.Finish? && a.key == Key(url, Refresh)
            && s.ops[a.key].stage.outcome == Ok(t.mem[url])
            && VerifiedFor(pieces, s.ops[a.key].id, t.mem[url])))
  {
    OrderIsTotal(s.mem[url].dates, s.mem[url].dates, s.mem[url].dates);
    if a.Finish? && a.key.url == url {
      assert OpOk(pieces, cfg, s, a.key, s.ops[a.key]);
    } else if !a.Finish? {
      OnlyFinishWritesMemory(pieces, cfg, s, a);
    }
  }

  lemma {:induction false} OnlyFinishWritesMemory(pieces: Pieces, cfg: Config, s: State, a: Action)
    requires Enabled(pieces, s, a) && !a.Finish?
    ensures Step(pieces, cfg, s, a).mem == s.mem
  {}

  /** A refetch that failed, did not verify or is older leaves body, chain, dates and origin as they were. */
  lemma {:induction false} FailedRefetchKeepsTheCopy(pieces: Pieces, cfg: Config, s: State, key: Key)
    requires Inv(pieces, cfg, s) && Enabled(pieces, s, Finish(key)) && key.lane.Refresh?
    requires var o := s.ops[key].stage.outcome;
      o.Err? || !o.value.dates.NotOlderThan(s.ops[key].kept.value.dates)
    ensures var t := Step(pieces, cfg, s, Finish(key));
      && key.url in s.mem && key.url in t.mem
      && t.mem[key.url] == s.mem[key.url].(checkedAt := s.clock)
      && forall url :: url != key.url ==> (url in t.mem <==> url in s.mem) && (url in s.mem ==> t.mem[url] == s.mem[url])
  {
    assert OpOk(pieces, cfg, s, key, s.ops[key]);
  }

  /** Over a whole run, the copy of a URL is never lost and never goes back. */
  lemma {:induction false} MemoryNeverGoesBack(pieces: Pieces, cfg: Config, states: seq<State>, actions: seq<Action>,
                                               i: nat, j: nat, url: Url)
    requires Run(pieces, cfg, states, actions) && i <= j <= |actions| && url in states[i].mem
    ensures url in states[j].mem && states[j].mem[url].dates.NotOlderThan(states[i].mem[url].dates)
    decreases j
  {
    if i == j {
      OrderIsTotal(states[i].mem[url].dates, states[i].mem[url].dates, states[i].mem[url].dates);
    } else {
      MemoryNeverGoesBack(pieces, cfg, states, actions, i, j - 1, url);
      RunKeepsInv(pieces, cfg, states, actions, j - 1);
      StepKeepsNewest(pieces, cfg, states[j - 1], actions[j - 1], url);
      OrderIsTotal(states[j].mem[url].dates, states[j - 1].mem[url].dates, states[i].mem[url].dates);
    }
  }
}
