/**
 Runs of the store that show where a promise ends: a request that follows a
 load's own request sooner than the recheck interval, a refresh asked again
 because its caller vanished, a failed load asked again because nothing was
 kept of it, a cold request that slips past a pause, and a pause cut short by
 a second reply.
 */
module StoreWitnesses {
  import opened Prelude
  import opened CollateralDates
  import opened StoreSteps
  import opened StorePause
  import opened StoreTiming
  import opened StoreGate

  /** What the upstream says of a piece it does not have. */
  const MISSING := HttpError(Some(404), None)

  /** A piece the evidence does not name, and a copy of it on disk that verifies but is no longer current. */
  datatype Story = Story(pieces: Pieces, cfg: Config, id: Id, now: I64, disk: Copy, random: U64)

  predicate Happens(w: Story) {
    && w.cfg.online && w.cfg.recheck > 1
    && !w.pieces.namedByEvidence(w.id)
    && w.pieces.verify(w.id, w.disk).Some?
    && !w.pieces.verify(w.id, w.disk).value.Current(w.now)
  }

  function OnDisk(w: Story): Entry
    requires Happens(w)
  {
    var dates := w.pieces.verify(w.id, w.disk).value;
    Entry(w.disk, dates, Disk, RefreshAt(dates, w.random), 0)
  }

  function LaneKey(w: Story, lane: Lane): Key {
    Key(w.pieces.url(w.id), lane)
  }

  /** The only operation under way is on `lane`. */
  function Under(w: Story, clock: Instant, lane: Lane, stage: Stage): State
    requires Happens(w)
  {
    State(clock, if lane.Load? then map[] else map[w.pieces.url(w.id) := OnDisk(w)], map[], map[],
          map[LaneKey(w, lane) := Op(w.id, Some(OnDisk(w)), stage)])
  }

  /** Nothing is under way; memory holds the disk copy as it was read. */
  function Rest(w: Story, clock: Instant): State
    requires Happens(w)
  {
    State(clock, map[w.pieces.url(w.id) := OnDisk(w)], map[], map[], map[])
  }

  function Denial(): Stage {
    Done(Err(Unavailable(MISSING)))
  }

  lemma {:induction false} LoadStarts(w: Story)
    requires Happens(w)
    ensures var a := StartLoad(w.id, w.now, Some(w.disk), w.random);
      Enabled(w.pieces, INITIAL, a) && Step(w.pieces, w.cfg, INITIAL, a) == Under(w, 0, Load, AtFailed)
  {}

  /** Nothing recorded and no pause: the gate lets the operation on, and a request goes out. */
  lemma {:induction false} GateOpens(w: Story, clock: Instant, lane: Lane)
    requires Happens(w)
    ensures var key := LaneKey(w, lane);
      && Enabled(w.pieces, Under(w, clock, lane, AtFailed), CheckFailed(key))
      && Step(w.pieces, w.cfg, Under(w, clock, lane, AtFailed), CheckFailed(key)) == Under(w, clock, lane, AtPause)
      && Enabled(w.pieces, Under(w, clock, lane, AtPause), CheckPause(key))
      && Step(w.pieces, w.cfg, Under(w, clock, lane, AtPause), CheckPause(key)) == Under(w, clock, lane, Asking)
  {}

  lemma {:induction false} UpstreamDenies(w: Story, clock: Instant, lane: Lane)
    requires Happens(w)
    ensures var a := Reply(LaneKey(w, lane), true, Err(MISSING), w.random);
      && Enabled(w.pieces, Under(w, clock, lane, Asking), a)
      && Step(w.pieces, w.cfg, Under(w, clock, lane, Asking), a) == Under(w, clock, lane, Denial())
  {}

  lemma {:induction false} LoadEnds(w: Story, clock: Instant)
    requires Happens(w)
    ensures var a := Finish(LaneKey(w, Load));
      && Enabled(w.pieces, Under(w, clock, Load, Denial()), a)
      && Step(w.pieces, w.cfg, Under(w, clock, Load, Denial()), a) == Rest(w, clock)
  {}

  /** A forced refresh starts as soon as the reading of the disk is `recheck` ago. */
  lemma {:induction false} RefreshStarts(w: Story)
    requires Happens(w)
    ensures var a := StartRefresh(w.id, w.now, true);
      && Enabled(w.pieces, Rest(w, w.cfg.recheck), a)
      && Step(w.pieces, w.cfg, Rest(w, w.cfg.recheck), a) == Under(w, w.cfg.recheck, Refresh, AtFailed)
  {}

  lemma {:induction false} CallerVanishes(w: Story, clock: Instant)
    requires Happens(w)
    ensures var a := Cancel(LaneKey(w, Refresh));
      && Enabled(w.pieces, Under(w, clock, Refresh, Denial()), a)
      && Step(w.pieces, w.cfg, Under(w, clock, Refresh, Denial()), a) == Rest(w, clock)
  {}

  lemma {:induction false} TimePasses(w: Story, clock: Instant, elapsed: nat)
    requires Happens(w)
    ensures Enabled(w.pieces, Under(w, clock, Load, Asking), Tick(elapsed)) && Enabled(w.pieces, Rest(w, clock), Tick(elapsed))
    ensures Step(w.pieces, w.cfg, Under(w, clock, Load, Asking), Tick(elapsed)) == Under(w, clock + elapsed, Load, Asking)
    ensures Step(w.pieces, w.cfg, Rest(w, clock), Tick(elapsed)) == Rest(w, clock + elapsed)
  {}

  /** A load whose request is denied when almost `recheck` has passed, then a forced refresh. */
  function EarlyActions(w: Story): seq<Action>
    requires Happens(w)
  {
    var (load, refresh) := (LaneKey(w, Load), LaneKey(w, Refresh));
    [StartLoad(w.id, w.now, Some(w.disk), w.random), CheckFailed(load), CheckPause(load), Tick(w.cfg.recheck - 1),
     Reply(load, true, Err(MISSING), w.random), Finish(load), Tick(1),
     StartRefresh(w.id, w.now, true), CheckFailed(refresh), CheckPause(refresh)]
  }

  function EarlyStates(w: Story): seq<State>
    requires Happens(w)
  {
    var late := w.cfg.recheck - 1;
    [INITIAL, Under(w, 0, Load, AtFailed), Under(w, 0, Load, AtPause), Under(w, 0, Load, Asking), Under(w, late, Load, Asking),
     Under(w, late, Load, Denial()), Rest(w, late), Rest(w, late + 1),
     Under(w, late + 1, Refresh, AtFailed), Under(w, late + 1, Refresh, AtPause), Under(w, late + 1, Refresh, Asking)]
  }

  lemma {:induction false} EarlyIsARun(w: Story)
    requires Happens(w)
    ensures Run(w.pieces, w.cfg, EarlyStates(w), EarlyActions(w))
  {
    hide Step, Enabled, Under, Rest;
    var late := w.cfg.recheck - 1;
    LoadStarts(w);
    GateOpens(w, 0, Load);
    TimePasses(w, 0, late);
    TimePasses(w, late, 1);
    UpstreamDenies(w, late, Load);
    LoadEnds(w, late);
    RefreshStarts(w);
    GateOpens(w, late + 1, Refresh);
  }

  /**
   A refetch sooner than `recheck` after the load's own request: here one
   nanosecond after its reply. The disk copy was kept, so the interval counts
   from when the disk was read.
   */
  lemma {:induction false} RefetchSoonAfterALoad(w: Story)
    requires Happens(w)
    ensures var (states, actions, url) := (EarlyStates(w), EarlyActions(w), w.pieces.url(w.id));
      && Run(w.pieces, w.cfg, states, actions)
      && actions[4].Reply? && actions[4].key == Key(url, Load) && actions[5] == Finish(Key(url, Load))
      && AsksAbout(states[9], states[10], url)
      && states[9].clock == states[4].clock + 1 < states[4].clock + w.cfg.recheck
  {
    EarlyIsARun(w);
    var url := w.pieces.url(w.id);
    assert At(EarlyStates(w)[10], Key(url, Refresh), Asking) && !At(EarlyStates(w)[9], Key(url, Refresh), Asking);
  }

  /** The same run goes on: the refresh is denied too, its caller vanishes, another one comes. */
  function LostActions(w: Story): seq<Action>
    requires Happens(w)
  {
    var key := LaneKey(w, Refresh);
    [Reply(key, true, Err(MISSING), w.random), Cancel(key), StartRefresh(w.id, w.now, true), CheckFailed(key), CheckPause(key)]
  }

  function LostStates(w: Story): seq<State>
    requires Happens(w)
  {
    var clock := w.cfg.recheck;
    [Under(w, clock, Refresh, Denial()), Rest(w, clock), Under(w, clock, Refresh, AtFailed),
     Under(w, clock, Refresh, AtPause), Under(w, clock, Refresh, Asking)]
  }

  lemma {:induction false} LostIsARun(w: Story)
    requires Happens(w)
    ensures Run(w.pieces, w.cfg, EarlyStates(w) + LostStates(w), EarlyActions(w) + LostActions(w))
  {
    hide Step, Enabled, Under, Rest, Happens;
    EarlyIsARun(w);
    UpstreamDenies(w, w.cfg.recheck, Refresh);
    CallerVanishes(w, w.cfg.recheck);
    RefreshStarts(w);
    GateOpens(w, w.cfg.recheck, Refresh);
  }

  /** A refresh whose caller vanishes with the answer in hand leaves no trace: the URL is asked about again at once. */
  lemma {:induction false} LostRefreshIsAskedAgain(w: Story)
    requires Happens(w)
    ensures var (states, actions, url) := (EarlyStates(w) + LostStates(w), EarlyActions(w) + LostActions(w), w.pieces.url(w.id));
      && Run(w.pieces, w.cfg, states, actions)
      && actions[10].Reply? && actions[10].key == Key(url, Refresh) && LosesTrack(w.cfg, states[11], states[12], actions[11], url, states[10].clock + w.cfg.recheck)
      && AsksAbout(states[14], states[15], url)
      && states[14].clock == states[10].clock
  {
    LostIsARun(w);
    var states, url := EarlyStates(w) + LostStates(w), w.pieces.url(w.id);
    assert At(states[15], Key(url, Refresh), Asking) && !At(states[14], Key(url, Refresh), Asking);
  }

  // ------------------------------------------------------ a piece held nowhere

  /** Nothing in memory or on disk; `n` cold fetches of the host counted in the second that began at 0. */
  function Nowhere(w: Story, n: nat, ops: map<Key, Op>): State {
    State(0, map[], map[], if n == 0 then map[] else map[HostOf(w.pieces.url(w.id)) := Host(None, Some(0), n)], ops)
  }

  function Bare(w: Story, n: nat, stage: Stage): State {
    Nowhere(w, n, map[LaneKey(w, Load) := Op(w.id, None, stage)])
  }

  lemma {:induction false} NothingYet(w: Story)
    ensures Nowhere(w, 0, map[]) == INITIAL
  {}

  lemma {:induction false} BareLoadStarts(w: Story, n: nat)
    requires Happens(w)
    ensures var a := StartLoad(w.id, w.now, None, w.random);
      Enabled(w.pieces, Nowhere(w, n, map[]), a) && Step(w.pieces, w.cfg, Nowhere(w, n, map[]), a) == Bare(w, n, AtFailed)
  {}

  lemma {:induction false} BareLoadPasses(w: Story, n: nat)
    requires Happens(w)
    ensures var key := LaneKey(w, Load);
      && Enabled(w.pieces, Bare(w, n, AtFailed), CheckFailed(key))
      && Step(w.pieces, w.cfg, Bare(w, n, AtFailed), CheckFailed(key)) == Bare(w, n, AtPause)
      && Enabled(w.pieces, Bare(w, n, AtPause), CheckPause(key))
      && Step(w.pieces, w.cfg, Bare(w, n, AtPause), CheckPause(key)) == Bare(w, n, AtAdmit)
  {
    hide HostOf, RefreshAt;
  }

  lemma {:induction false} BareLoadAsks(w: Story, n: nat)
    requires Happens(w) && n < COLD_PER_SECOND
    ensures var key := LaneKey(w, Load);
      && Enabled(w.pieces, Bare(w, n, AtAdmit), Admit(key))
      && Step(w.pieces, w.cfg, Bare(w, n, AtAdmit), Admit(key)) == Bare(w, n + 1, Asking)
  {
    hide HostOf, RefreshAt;
  }

  lemma {:induction false} BareLoadFails(w: Story, n: nat)
    requires Happens(w)
    ensures var (answer, end) := (Reply(LaneKey(w, Load), true, Err(MISSING), w.random), Finish(LaneKey(w, Load)));
      && Enabled(w.pieces, Bare(w, n, Asking), answer)
      && Step(w.pieces, w.cfg, Bare(w, n, Asking), answer) == Bare(w, n, Denial())
      && Enabled(w.pieces, Bare(w, n, Denial()), end)
      && Step(w.pieces, w.cfg, Bare(w, n, Denial()), end) == Nowhere(w, n, map[])
  {
    hide HostOf, RefreshAt;
  }

  function BareActions(w: Story): seq<Action> {
    var (start, key) := (StartLoad(w.id, w.now, None, w.random), LaneKey(w, Load));
    [start, CheckFailed(key), CheckPause(key), Admit(key), Reply(key, true, Err(MISSING), w.random), Finish(key),
     start, CheckFailed(key), CheckPause(key), Admit(key)]
  }

  function BareStates(w: Story): seq<State> {
    [Nowhere(w, 0, map[]), Bare(w, 0, AtFailed), Bare(w, 0, AtPause), Bare(w, 0, AtAdmit), Bare(w, 1, Asking),
     Bare(w, 1, Denial()), Nowhere(w, 1, map[]), Bare(w, 1, AtFailed), Bare(w, 1, AtPause), Bare(w, 1, AtAdmit), Bare(w, 2, Asking)]
  }

  lemma {:induction false} BareIsARun(w: Story)
    requires Happens(w)
    ensures Run(w.pieces, w.cfg, BareStates(w), BareActions(w))
  {
    hide Step, Enabled, Bare, Nowhere, HostOf;
    NothingYet(w);
    BareLoadStarts(w, 0);
    BareLoadPasses(w, 0);
    BareLoadAsks(w, 0);
    BareLoadFails(w, 1);
    BareLoadStarts(w, 1);
    BareLoadPasses(w, 1);
    BareLoadAsks(w, 1);
  }

  /** A failed load that is not recorded leaves nothing to count from: the next lookup asks again at once. */
  lemma {:induction false} FailedLoadIsAskedAgain(w: Story)
    requires Happens(w)
    ensures var (states, actions, url) := (BareStates(w), BareActions(w), w.pieces.url(w.id));
      && Run(w.pieces, w.cfg, states, actions)
      && actions[4].Reply? && actions[4].key == Key(url, Load) && actions[5] == Finish(Key(url, Load))
      && AsksAbout(states[9], states[10], url)
      && states[9].clock == states[4].clock
  {
    BareIsARun(w);
    var url := w.pieces.url(w.id);
    assert At(BareStates(w)[10], Key(url, Load), Asking) && !At(BareStates(w)[9], Key(url, Load), Asking);
  }

  // ------------------------------------------------ behind the gate of the pause

  /** Two pieces of one vendor host, neither in memory nor on disk. */
  datatype Pair = Pair(pieces: Pieces, cfg: Config, a: Id, b: Id, now: I64, random: U64)

  predicate SameHost(p: Pair) {
    && p.cfg.online
    && p.pieces.url(p.a) != p.pieces.url(p.b)
    && HostOf(p.pieces.url(p.a)) == HostOf(p.pieces.url(p.b))
  }

  function LoadKey(p: Pair, id: Id): Key {
    Key(p.pieces.url(id), Load)
  }

  const TOO_MANY := HttpError(Some(429), None)

  /** The first piece has passed the gate and waits to be counted; the second stands at `stage`. */
  function Waiting(p: Pair, hosts: map<string, Host>, stage: Stage): State {
    State(0, map[], map[], hosts, map[LoadKey(p, p.a) := Op(p.a, None, AtAdmit), LoadKey(p, p.b) := Op(p.b, None, stage)])
  }

  function OnlyFirst(p: Pair, stage: Stage): State {
    State(0, map[], map[], map[], map[LoadKey(p, p.a) := Op(p.a, None, stage)])
  }

  /** One fetch counted in the second that began at 0. */
  function Counted(p: Pair): map<string, Host> {
    map[HostOf(p.pieces.url(p.b)) := Host(None, Some(0), 1)]
  }

  function Paused(p: Pair): State {
    var failure := Recording(Unavailable(TOO_MANY.(retryAfter := Some(Max(PauseOf(p.cfg, TOO_MANY) / SECOND, 1)))));
    Waiting(p, map[HostOf(p.pieces.url(p.b)) := Host(Some(PauseOf(p.cfg, TOO_MANY)), Some(0), 1)], failure)
  }

  lemma {:induction false} FirstPassesTheGate(p: Pair)
    requires SameHost(p)
    ensures var (start, key) := (StartLoad(p.a, p.now, None, p.random), LoadKey(p, p.a));
      && Enabled(p.pieces, INITIAL, start) && Step(p.pieces, p.cfg, INITIAL, start) == OnlyFirst(p, AtFailed)
      && Enabled(p.pieces, OnlyFirst(p, AtFailed), CheckFailed(key))
      && Step(p.pieces, p.cfg, OnlyFirst(p, AtFailed), CheckFailed(key)) == OnlyFirst(p, AtPause)
      && Enabled(p.pieces, OnlyFirst(p, AtPause), CheckPause(key))
      && Step(p.pieces, p.cfg, OnlyFirst(p, AtPause), CheckPause(key)) == OnlyFirst(p, AtAdmit)
  {}

  lemma {:induction false} SecondPassesTheGate(p: Pair)
    requires SameHost(p)
    ensures var (start, key) := (StartLoad(p.b, p.now, None, p.random), LoadKey(p, p.b));
      && Enabled(p.pieces, OnlyFirst(p, AtAdmit), start)
      && Step(p.pieces, p.cfg, OnlyFirst(p, AtAdmit), start) == Waiting(p, map[], AtFailed)
      && Enabled(p.pieces, Waiting(p, map[], AtFailed), CheckFailed(key))
      && Step(p.pieces, p.cfg, Waiting(p, map[], AtFailed), CheckFailed(key)) == Waiting(p, map[], AtPause)
      && Enabled(p.pieces, Waiting(p, map[], AtPause), CheckPause(key))
      && Step(p.pieces, p.cfg, Waiting(p, map[], AtPause), CheckPause(key)) == Waiting(p, map[], AtAdmit)
  {
    hide RefreshAt, HostOf, UpToDelimiter;
  }

  lemma {:induction false} SecondIsCounted(p: Pair)
    requires SameHost(p)
    ensures var key := LoadKey(p, p.b);
      && Enabled(p.pieces, Waiting(p, map[], AtAdmit), Admit(key))
      && Step(p.pieces, p.cfg, Waiting(p, map[], AtAdmit), Admit(key)) == Waiting(p, Counted(p), Asking)
  {
    hide RefreshAt, HostOf, UpToDelimiter;
  }

  lemma {:induction false} SecondIsTurnedAway(p: Pair)
    requires SameHost(p)
    ensures var answer := Reply(LoadKey(p, p.b), true, Err(TOO_MANY), p.random);
      && Enabled(p.pieces, Waiting(p, Counted(p), Asking), answer)
      && Step(p.pieces, p.cfg, Waiting(p, Counted(p), Asking), answer) == Paused(p)
  {
    hide RefreshAt, HostOf, UpToDelimiter;
  }

  function PairActions(p: Pair): seq<Action> {
    var (first, second) := (LoadKey(p, p.a), LoadKey(p, p.b));
    [StartLoad(p.a, p.now, None, p.random), CheckFailed(first), CheckPause(first),
     StartLoad(p.b, p.now, None, p.random), CheckFailed(second), CheckPause(second),
     Admit(second), Reply(second, true, Err(TOO_MANY), p.random)]
  }

  function PairStates(p: Pair): seq<State> {
    [INITIAL, OnlyFirst(p, AtFailed), OnlyFirst(p, AtPause), OnlyFirst(p, AtAdmit),
     Waiting(p, map[], AtFailed), Waiting(p, map[], AtPause), Waiting(p, map[], AtAdmit),
     Waiting(p, Counted(p), Asking), Paused(p)]
  }

  lemma {:induction false} PairIsARun(p: Pair)
    requires SameHost(p)
    ensures Run(p.pieces, p.cfg, PairStates(p), PairActions(p))
  {
    hide Step, Enabled, OnlyFirst, Waiting, Counted, Paused, SameHost;
    FirstPassesTheGate(p);
    SecondPassesTheGate(p);
    SecondIsCounted(p);
    SecondIsTurnedAway(p);
  }

  lemma {:induction false} CountedAllTheSame(p: Pair)
    requires SameHost(p)
    ensures var (s, a) := (Paused(p), Admit(LoadKey(p, p.a)));
      && Enabled(p.pieces, s, a)
      && PauseStands(s, HostOf(p.pieces.url(p.a)))
      && AsksAbout(s, Step(p.pieces, p.cfg, s, a), p.pieces.url(p.a))
  {
    var t := Step(p.pieces, p.cfg, Paused(p), Admit(LoadKey(p, p.a)));
    assert At(t, LoadKey(p, p.a), Asking);
  }

  /**
   The pause is looked at before a cold fetch is counted. A fetch that was let on
   and not yet counted goes out although another reply has paused its host.
   */
  lemma {:induction false} ColdRequestSlipsPastThePause(p: Pair)
    requires SameHost(p)
    ensures var (states, actions, url) := (PairStates(p), PairActions(p), p.pieces.url(p.a));
      && Run(p.pieces, p.cfg, states, actions)
      && Enabled(p.pieces, states[8], Admit(Key(url, Load)))
      && PauseStands(states[8], HostOf(url))
      && AsksAbout(states[8], Step(p.pieces, p.cfg, states[8], Admit(Key(url, Load))), url)
  {
    PairIsARun(p);
    CountedAllTheSame(p);
  }

  // ---------------------------------------------------------- a pause cut short

  /** Three pieces of one vendor host, none of them in memory or on disk. */
  datatype Trio = Trio(pieces: Pieces, cfg: Config, a: Id, b: Id, c: Id, now: I64, random: U64) {
    function KeyOf(id: Id): Key {
      Key(pieces.url(id), Load)
    }

    function AskToWait(id: Id, seconds: nat): Action {
      Reply(KeyOf(id), true, Err(HttpError(Some(429), Some(seconds))), random)
    }
  }

  predicate OneHost(p: Trio) {
    && p.cfg.online && p.cfg.recheck >= 60 * SECOND
    && p.pieces.url(p.a) != p.pieces.url(p.b) && p.pieces.url(p.b) != p.pieces.url(p.c) && p.pieces.url(p.a) != p.pieces.url(p.c)
    && HostOf(p.pieces.url(p.a)) == HostOf(p.pieces.url(p.b)) == HostOf(p.pieces.url(p.c))
  }

  /** Nothing in memory, nothing recorded, nobody after the third piece; the host is as `h` says. */
  predicate HostIs(p: Trio, s: State, h: Host) {
    && s.mem == map[] && s.failed == map[]
    && HostNamed(s, HostOf(p.pieces.url(p.a))) == h
    && p.KeyOf(p.c) !in s.ops
  }

  lemma {:induction false} WaitIsAsked(p: Trio, s: State, h: Host, id: Id, seconds: nat)
    requires OneHost(p) && HostIs(p, s, h) && id in {p.a, p.b} && At(s, p.KeyOf(id), Asking) && 1 <= seconds <= 60
    ensures var t := Step(p.pieces, p.cfg, s, p.AskToWait(id, seconds));
      && HostIs(p, t, h.(pausedUntil := Some(s.clock + seconds * SECOND))) && t.clock == s.clock
      && forall key :: key != p.KeyOf(id) && key in s.ops ==> key in t.ops && t.ops[key] == s.ops[key]
  {
    hide HostOf, AfterReply;
  }

  /** Two requests are under way when the host asks to be left alone for a minute, and then for a second. */
  lemma {:induction false} TwoAsk(p: Trio) returns (states: seq<State>, actions: seq<Action>)
    requires OneHost(p)
    ensures Run(p.pieces, p.cfg, states, actions)
    ensures var s := states[|actions|];
      && HostIs(p, s, Host(None, Some(0), 2)) && s.clock == 0
      && At(s, p.KeyOf(p.a), Asking) && At(s, p.KeyOf(p.b), Asking)
  {
    hide HostOf, Run, Step, EndsAsking;
    assert Run(p.pieces, p.cfg, [INITIAL], []) by { EmptyRun(p.pieces, p.cfg); }
    states, actions := LoadAsksExactly(p.pieces, p.cfg, [INITIAL], [], p.a, p.now, None, p.random);
    states, actions := LoadAsksExactly(p.pieces, p.cfg, states, actions, p.b, p.now, None, p.random);
  }

  lemma {:induction false} EmptyRun(pieces: Pieces, cfg: Config)
    ensures Run(pieces, cfg, [INITIAL], [])
  {}

  /**
   Retry-After 60, and still a request after a second: the pause is whatever the
   last reply asked for, and another one that was under way asked for less.
   */
  lemma {:induction false} ShorterReplyEndsThePause(p: Trio)
    returns (states: seq<State>, actions: seq<Action>, i: nat)
    requires OneHost(p)
    ensures Run(p.pieces, p.cfg, states, actions) && i + 2 < |actions|
    ensures Honours(p.cfg, 60)
    ensures actions[i] == p.AskToWait(p.a, 60) && actions[i + 1] == p.AskToWait(p.b, 1)
    ensures p.KeyOf(p.c) !in states[i + 1].ops && EndsAsking(states, p.pieces.url(p.c))
    ensures states[|actions|].clock == states[i].clock + SECOND + 1 < states[i].clock + 60 * SECOND
  {
    hide HostOf, Run, Step, EndsAsking;
    states, actions := TwoAsk(p);
    i := |actions|;
    var first, second, last := p.AskToWait(p.a, 60), p.AskToWait(p.b, 1), Tick(SECOND + 1);
    WaitIsAsked(p, states[i], Host(None, Some(0), 2), p.a, 60);
    RunGoesOn(p.pieces, p.cfg, states, actions, first);
    states, actions := states + [Step(p.pieces, p.cfg, states[i], first)], actions + [first];
    WaitIsAsked(p, states[i + 1], Host(Some(60 * SECOND), Some(0), 2), p.b, 1);
    RunGoesOn(p.pieces, p.cfg, states, actions, second);
    states, actions := states + [Step(p.pieces, p.cfg, states[i + 1], second)], actions + [second];
    var s := states[i + 2];
    RunGoesOn(p.pieces, p.cfg, states, actions, last);
    TickOnly(p.pieces, p.cfg, s, SECOND + 1);
    states, actions := states + [s.(clock := SECOND + 1)], actions + [last];
    states, actions := LoadAsksExactly(p.pieces, p.cfg, states, actions, p.c, p.now, None, p.random);
  }

  lemma {:induction false} TickOnly(pieces: Pieces, cfg: Config, s: State, elapsed: nat)
    ensures Enabled(pieces, s, Tick(elapsed)) && Step(pieces, cfg, s, Tick(elapsed)) == s.(clock := s.clock + elapsed)
  {}
}
