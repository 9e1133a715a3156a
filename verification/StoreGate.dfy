/**
 What the gate before a request lets through, in any state a run can reach: a
 fetch that no other caller disturbs asks the upstream at once exactly when the
 store is online, no recorded failure and no pause stands and, for a piece held
 nowhere, the second is not full.
 */
module StoreGate {
  import opened Prelude
  import opened CollateralDates
  import opened StoreSteps
  import opened StoreSafety
  import opened StoreTiming
  import opened StorePause

  /** The steps of the gate, one after the other: recorded failures, the pause, the count of cold fetches. */
  function Passed(cfg: Config, s: State, key: Key): State
    requires At(s, key, AtFailed)
  {
    var t := CheckFailedStep(cfg, s, key);
    if !At(t, key, AtPause) then t else
    var u := CheckPauseStep(t, key);
    if At(u, key, AtAdmit) then AdmitStep(u, key) else u
  }

  /** Nothing holds back requests about `url`. */
  predicate Open(cfg: Config, s: State, url: Url) {
    cfg.online && !FailureStands(cfg, s, url) && !PauseStands(s, HostOf(url))
  }

  /** Fewer cold fetches than allowed were counted for the host of `url` in this second. */
  predicate HasRoom(s: State, url: Url) {
    Window(HostState(s, url), s.clock).cold < COLD_PER_SECOND
  }

  /** The host of `url` with one more cold fetch counted. */
  function OneMore(s: State, url: Url): Host {
    var w := Window(HostState(s, url), s.clock);
    w.(cold := w.cold + 1)
  }

  /** `t` is `s` with the operation on `key` at `stage`. */
  predicate MovedTo(s: State, t: State, key: Key, stage: Stage)
    requires key in s.ops
  {
    t == s.(ops := s.ops[key := s.ops[key].(stage := stage)])
  }

  lemma {:induction false} FailuresGate(cfg: Config, s: State, key: Key) returns (stage: Stage)
    requires key in s.ops
    ensures MovedTo(s, CheckFailedStep(cfg, s, key), key, stage) && (stage.AtPause? || stage.Done?)
    ensures stage.AtPause? <==> cfg.online && !FailureStands(cfg, s, key.url)
  {
    hide FailureStands;
    stage := CheckFailedStep(cfg, s, key).ops[key].stage;
  }

  lemma {:induction false} PauseGate(s: State, key: Key) returns (stage: Stage)
    requires key in s.ops
    ensures MovedTo(s, CheckPauseStep(s, key), key, stage) && (stage.AtAdmit? || stage.Asking? || stage.Done?)
    ensures stage.AtAdmit? <==> !PauseStands(s, HostOf(key.url)) && IsCold(key, s.ops[key])
    ensures stage.Asking? <==> !PauseStands(s, HostOf(key.url)) && !IsCold(key, s.ops[key])
  {
    hide HostOf;
    stage := CheckPauseStep(s, key).ops[key].stage;
  }

  lemma {:induction false} AdmitGate(s: State, key: Key) returns (stage: Stage)
    requires key in s.ops
    ensures var t := AdmitStep(s, key); MovedTo(s.(hosts := t.hosts), t, key, stage) && (stage.Asking? || stage.Done?)
    ensures stage.Asking? <==> HasRoom(s, key.url)
    ensures stage.Asking? ==> AdmitStep(s, key).hosts == s.hosts[HostOf(key.url) := OneMore(s, key.url)]
  {
    hide HostOf, Window;
    stage := AdmitStep(s, key).ops[key].stage;
  }

  lemma {:induction false} GateLetsThrough(cfg: Config, s: State, key: Key)
    requires At(s, key, AtFailed)
    ensures var t := Passed(cfg, s, key);
      && key in t.ops && t.clock == s.clock && t.mem == s.mem && t.failed == s.failed
      && (t.ops[key].stage.Asking? <==> Open(cfg, s, key.url) && (IsCold(key, s.ops[key]) ==> HasRoom(s, key.url)))
      && (t.ops[key].stage.Asking? ==>
            && t.ops == s.ops[key := s.ops[key].(stage := Asking)]
            && t.hosts == if IsCold(key, s.ops[key]) then s.hosts[HostOf(key.url) := OneMore(s, key.url)] else s.hosts)
  {
    hide HostOf, StandsFor, CheckFailedStep, CheckPauseStep, AdmitStep, Window;
    var stage := FailuresGate(cfg, s, key);
    if stage.AtPause? {
      var t := CheckFailedStep(cfg, s, key);
      stage := PauseGate(t, key);
      if stage.AtAdmit? {
        stage := AdmitGate(CheckPauseStep(t, key), key);
      }
    }
  }

  /** The last step of the run is a request about `url`. */
  predicate EndsAsking(states: seq<State>, url: Url) {
    |states| >= 2 && AsksAbout(states[|states| - 2], states[|states| - 1], url)
  }

  /** A fetch that is not disturbed passes the gate, or is turned away at it, without the clock moving. */
  lemma {:induction false} GateIsRun(pieces: Pieces, cfg: Config, states: seq<State>, actions: seq<Action>, key: Key)
    returns (states': seq<State>, actions': seq<Action>)
    requires Run(pieces, cfg, states, actions) && At(states[|actions|], key, AtFailed)
    ensures Run(pieces, cfg, states', actions') && states < states' && actions < actions'
    ensures states'[|actions'|] == Passed(cfg, states[|actions|], key)
    ensures At(states'[|actions'|], key, Asking) ==> EndsAsking(states', key.url)
  {
    hide Run, CheckFailedStep, CheckPauseStep, AdmitStep;
    var s := states[|actions|];
    var t := CheckFailedStep(cfg, s, key);
    RunGoesOn(pieces, cfg, states, actions, CheckFailed(key));
    states', actions' := states + [t], actions + [CheckFailed(key)];
    var stage := FailuresGate(cfg, s, key);
    if At(t, key, AtPause) {
      var u := CheckPauseStep(t, key);
      RunGoesOn(pieces, cfg, states', actions', CheckPause(key));
      states', actions' := states' + [u], actions' + [CheckPause(key)];
      if At(u, key, AtAdmit) {
        var v := AdmitStep(u, key);
        RunGoesOn(pieces, cfg, states', actions', Admit(key));
        states', actions' := states' + [v], actions' + [Admit(key)];
      }
    }
  }

  // --------------------------------------------------- lookups that are not disturbed

  /** What a copy read from disk is to the load of `id`, if it verifies as that piece. */
  function DiskDates(pieces: Pieces, id: Id, disk: Option<Copy>): Option<Dates> {
    if disk.None? then None else pieces.verify(id, disk.value)
  }

  lemma {:induction false} LoadStarts(pieces: Pieces, cfg: Config, s: State, id: Id, now: I64, disk: Option<Copy>, random: U64)
    returns (kept: Option<Entry>, stage: Stage)
    requires Enabled(pieces, s, StartLoad(id, now, disk, random))
    ensures var dates := DiskDates(pieces, id, disk);
      && Step(pieces, cfg, s, StartLoad(id, now, disk, random)) == s.(ops := s.ops[Key(pieces.url(id), Load) := Op(id, kept, stage)])
      && (kept.None? <==> dates.None?)
      && (stage.AtFailed? || stage.Done?) && (stage.Done? <==> dates.Some? && dates.value.Current(now))
  {
    hide RefreshAt;
    var op := Step(pieces, cfg, s, StartLoad(id, now, disk, random)).ops[Key(pieces.url(id), Load)];
    kept, stage := op.kept, op.stage;
  }

  /**
   A lookup of a piece that is not in memory, whenever nobody is loading it and
   nobody disturbs: without the clock moving a request goes out if and only if
   the disk has no current copy and the gate is open, which for a piece not on
   disk either includes room in the second. No earlier request or failure counts
   beyond that.
   */
  lemma {:induction false} LoadAsksExactly(pieces: Pieces, cfg: Config, states: seq<State>, actions: seq<Action>,
                                           id: Id, now: I64, disk: Option<Copy>, random: U64)
    returns (states': seq<State>, actions': seq<Action>)
    requires Run(pieces, cfg, states, actions)
    requires pieces.url(id) !in states[|actions|].mem && Key(pieces.url(id), Load) !in states[|actions|].ops
    ensures Run(pieces, cfg, states', actions') && states < states'
    ensures actions + [StartLoad(id, now, disk, random)] <= actions'
    ensures var (s, t, key) := (states[|actions|], states'[|actions'|], Key(pieces.url(id), Load));
      var dates := DiskDates(pieces, id, disk);
      && t.clock == s.clock && t.mem == s.mem && t.failed == s.failed
      && (At(t, key, Asking) <==>
            && !(dates.Some? && dates.value.Current(now))
            && Open(cfg, s, key.url) && (dates.None? ==> HasRoom(s, key.url)))
      && (At(t, key, Asking) ==>
            && EndsAsking(states', key.url)
            && t.ops == s.ops[key := t.ops[key]] && t.ops[key].id == id
            && t.hosts == if dates.None? then s.hosts[HostOf(key.url) := OneMore(s, key.url)] else s.hosts)
  {
    hide Run, HostOf, StandsFor, Window, Step, EndsAsking;
    var (s, start, key) := (states[|actions|], StartLoad(id, now, disk, random), Key(pieces.url(id), Load));
    RunGoesOn(pieces, cfg, states, actions, start);
    states', actions' := states + [Step(pieces, cfg, s, start)], actions + [start];
    var kept, stage := LoadStarts(pieces, cfg, s, id, now, disk, random);
    if stage.AtFailed? {
      var t := Step(pieces, cfg, s, start);
      GateLetsThrough(cfg, t, key);
      states', actions' := GateIsRun(pieces, cfg, states', actions', key);
    }
  }

  /** Without force: from the refresh time of a piece with a nextUpdate, else once the last look is an hour ago. */
  predicate Timely(e: Entry, clock: Instant, now: I64) {
    if e.dates.nextUpdate.Some? then e.refreshAt <= now else e.checkedAt + MAX_AGE <= clock
  }

  /** The last look is `recheck` ago and, unless forced, it is time. */
  predicate ToRefresh(cfg: Config, e: Entry, clock: Instant, now: I64, force: bool) {
    e.checkedAt + cfg.recheck <= clock && (force || Timely(e, clock, now))
  }

  lemma {:induction false} RefreshStarts(pieces: Pieces, cfg: Config, s: State, id: Id, now: I64, force: bool)
    requires Enabled(pieces, s, StartRefresh(id, now, force))
    ensures var (url, t) := (pieces.url(id), Step(pieces, cfg, s, StartRefresh(id, now, force)));
      t == if ToRefresh(cfg, s.mem[url], s.clock, now, force)
           then s.(ops := s.ops[Key(url, Refresh) := Op(id, Some(s.mem[url]), AtFailed)]) else s
  {}

  lemma {:induction false} MemoryCanAge(pieces: Pieces, cfg: Config, states: seq<State>, actions: seq<Action>, url: Url)
    requires Run(pieces, cfg, states, actions) && url in states[|actions|].mem
    ensures CanAge(states[|actions|], url)
  {
    RunKeepsInv(pieces, cfg, states, actions, |actions|);
  }

  /**
   A look at a piece in memory that nobody is refreshing, not disturbed: a request
   goes out at that very moment if and only if its last look is `recheck` ago, it is
   time or forced, and the gate is open.
   */
  lemma {:induction false} RefreshAsksExactly(pieces: Pieces, cfg: Config, states: seq<State>, actions: seq<Action>,
                                              id: Id, now: I64, force: bool)
    returns (states': seq<State>, actions': seq<Action>)
    requires Run(pieces, cfg, states, actions)
    requires pieces.url(id) in states[|actions|].mem && Key(pieces.url(id), Refresh) !in states[|actions|].ops
    ensures states[|actions|].mem[pieces.url(id)].checkedAt <= states[|actions|].clock
    ensures Run(pieces, cfg, states', actions') && states < states'
    ensures actions + [StartRefresh(id, now, force)] <= actions'
    ensures var (s, t, key) := (states[|actions|], states'[|actions'|], Key(pieces.url(id), Refresh));
      && t.clock == s.clock && t.mem == s.mem && t.failed == s.failed
      && (At(t, key, Asking) <==> ToRefresh(cfg, s.mem[key.url], s.clock, now, force) && Open(cfg, s, key.url))
      && (At(t, key, Asking) ==> EndsAsking(states', key.url) && t.ops == s.ops[key := t.ops[key]] && t.hosts == s.hosts)
  {
    hide Run, Inv, HostOf, StandsFor, Window, Step, EndsAsking, ToRefresh;
    var (s, start, key) := (states[|actions|], StartRefresh(id, now, force), Key(pieces.url(id), Refresh));
    MemoryCanAge(pieces, cfg, states, actions, key.url);
    RunGoesOn(pieces, cfg, states, actions, start);
    states', actions' := states + [Step(pieces, cfg, s, start)], actions + [start];
    RefreshStarts(pieces, cfg, s, id, now, force);
    if ToRefresh(cfg, s.mem[key.url], s.clock, now, force) {
      GateLetsThrough(cfg, Step(pieces, cfg, s, start), key);
      states', actions' := GateIsRun(pieces, cfg, states', actions', key);
    }
  }

  // ------------------------------------------------------ after an answer was lost

  /** A refresh is under way only for an entry last looked at `recheck` ago or earlier. */
  predicate RefreshedWhenDue(cfg: Config, s: State, url: Url) {
    Key(url, Refresh) in s.ops ==> url in s.mem && s.mem[url].checkedAt + cfg.recheck <= s.clock
  }

  lemma {:induction false} StepRefreshesWhenDue(pieces: Pieces, cfg: Config, s: State, a: Action, url: Url)
    requires Inv(pieces, cfg, s) && Enabled(pieces, s, a) && RefreshedWhenDue(cfg, s, url)
    ensures RefreshedWhenDue(cfg, Step(pieces, cfg, s, a), url)
  {
    var key := Key(url, Refresh);
    ClockNeverGoesBack(pieces, cfg, s, a);
    if a.StartRefresh? && pieces.url(a.id) == url {
      RefreshStarts(pieces, cfg, s, a.id, a.now, a.force);
    } else {
      hide Step;
      if Ends(a, key) {
        EndFrees(pieces, cfg, s, a, key);
      } else {
        if !Touches(pieces, a, key) {
          OthersUntouched(pieces, cfg, s, a, key);
        }
        if a.Finish? {
          if url in s.mem {
            OneLaneFinish(pieces, cfg, s, a.key, url);
            StepKeepsNewest(pieces, cfg, s, a, url);
          }
        } else {
          OnlyFinishWritesMemory(pieces, cfg, s, a);
        }
      }
    }
  }

  lemma {:induction false} EndFrees(pieces: Pieces, cfg: Config, s: State, a: Action, key: Key)
    requires Enabled(pieces, s, a) && Ends(a, key)
    ensures key !in Step(pieces, cfg, s, a).ops
  {}

  lemma {:induction false} RunRefreshesWhenDue(pieces: Pieces, cfg: Config, states: seq<State>, actions: seq<Action>,
                                               n: nat, url: Url)
    requires Run(pieces, cfg, states, actions) && n <= |actions|
    ensures RefreshedWhenDue(cfg, states[n], url)
  {
    hide Step, Inv, Enabled;
    if n > 0 {
      RunRefreshesWhenDue(pieces, cfg, states, actions, n - 1, url);
      RunStep(pieces, cfg, states, actions, n - 1);
      StepRefreshesWhenDue(pieces, cfg, states[n - 1], actions[n - 1], url);
    }
  }

  /** The clock moves on, then someone looks at `id` with force. */
  function LaterLook(elapsed: nat, id: Id, now: I64): seq<Action> {
    [Tick(elapsed), StartRefresh(id, now, true)]
  }

  /**
   A refresh whose caller vanished with the answer in hand leaves an entry that is
   still due. A forced look, at once or any time later and not disturbed, sends
   the next request if and only if the gate is open at that moment: what the lost
   answer left behind holds it back only as a recorded failure or a pause.
   */
  lemma {:induction false} LostAnswerIsAskedAgainExactly(pieces: Pieces, cfg: Config, states: seq<State>, actions: seq<Action>,
                                                         id: Id, now: I64, elapsed: nat)
    returns (states': seq<State>, actions': seq<Action>)
    requires Run(pieces, cfg, states, actions) && actions != []
    requires LosesAnswer(states[|actions| - 1], actions[|actions| - 1], pieces.url(id))
    ensures Run(pieces, cfg, states', actions') && states < states' && actions + LaterLook(elapsed, id, now) <= actions'
    ensures var (url, s) := (pieces.url(id), states[|actions|]);
      var later := s.(clock := s.clock + elapsed);
      && states'[|actions'|].clock == later.clock
      && (At(states'[|actions'|], Key(url, Refresh), Asking) <==> Open(cfg, later, url))
      && (Open(cfg, later, url) ==> EndsAsking(states', url))
  {
    hide HostOf, StandsFor, Window, EndsAsking, FailureStands, PauseStands;
    var (s, key) := (states[|actions|], Key(pieces.url(id), Refresh));
    LostLeavesDue(pieces, cfg, states, actions, key.url);
    RunGoesOn(pieces, cfg, states, actions, Tick(elapsed));
    var states1, actions1 := states + [s.(clock := s.clock + elapsed)], actions + [Tick(elapsed)];
    states', actions' := RefreshAsksExactly(pieces, cfg, states1, actions1, id, now, true);
    assert actions + LaterLook(elapsed, id, now) == actions1 + [StartRefresh(id, now, true)];
  }

  lemma {:induction false} LostLeavesDue(pieces: Pieces, cfg: Config, states: seq<State>, actions: seq<Action>, url: Url)
    requires Run(pieces, cfg, states, actions) && actions != []
    requires LosesAnswer(states[|actions| - 1], actions[|actions| - 1], url)
    ensures var s := states[|actions|];
      url in s.mem && Key(url, Refresh) !in s.ops && s.mem[url].checkedAt + cfg.recheck <= s.clock
  {
    RunRefreshesWhenDue(pieces, cfg, states, actions, |actions| - 1, url);
  }
}
