/**
 When a piece in memory is asked for again without force: not before the last
 quarter of its window, always from a day before its nextUpdate on, and hourly
 when it has no nextUpdate.
 */
module StoreDue {
  import opened Prelude
  import opened CollateralDates
  import opened StoreSteps
  import opened StoreTiming
  import opened StoreGate
  import opened StoreOrigin

  /** The last day before nextUpdate has begun. */
  predicate InLastDay(dates: Dates, now: I64) {
    dates.nextUpdate.Some? && now >= dates.nextUpdate.value - 24 * 3600
  }

  /** The last quarter of the window has begun, up to the three seconds that whole quarters lose. */
  predicate InLastQuarter(dates: Dates, now: I64) {
    && dates.thisUpdate.Some? && dates.nextUpdate.Some?
    && 4 * (now - dates.thisUpdate.value) > 3 * (dates.nextUpdate.value - dates.thisUpdate.value) - 12
  }

  /** In any run, it is time to refresh an entry within these bounds, whatever was drawn for it. */
  lemma {:induction false} TimeToRefresh(pieces: Pieces, cfg: Config, states: seq<State>, actions: seq<Action>,
                                         n: nat, url: Url, now: I64)
    requires Run(pieces, cfg, states, actions) && n <= |actions| && url in states[n].mem
    ensures var (e, clock) := (states[n].mem[url], states[n].clock);
      && (e.dates.nextUpdate.Some? && Timely(e, clock, now) ==> InLastDay(e.dates, now) || InLastQuarter(e.dates, now))
      && (InLastDay(e.dates, now) ==> Timely(e, clock, now))
      && (e.dates.nextUpdate.None? ==> (Timely(e, clock, now) <==> clock >= e.checkedAt + 3600 * SECOND))
  {
    hide Run, RefreshAt;
    var i := OriginsAreTrue(pieces, cfg, states, actions, n, url);
    var random :| states[n].mem[url].refreshAt == RefreshAt(states[n].mem[url].dates, random);
  }

  /** Whether a look begins a refresh, in any run and with any callers around. */
  lemma {:induction false} LookBeginsRefresh(pieces: Pieces, cfg: Config, states: seq<State>, actions: seq<Action>,
                                             n: nat, id: Id, now: I64, force: bool)
    requires Run(pieces, cfg, states, actions) && n < |actions| && actions[n] == StartRefresh(id, now, force)
    ensures pieces.url(id) in states[n].mem
    ensures var (e, clock) := (states[n].mem[pieces.url(id)], states[n].clock);
      var begins := Key(pieces.url(id), Refresh) in states[n + 1].ops;
      && (begins ==> clock >= e.checkedAt + cfg.recheck)
      && (begins && !force && e.dates.nextUpdate.Some? ==> InLastDay(e.dates, now) || InLastQuarter(e.dates, now))
      && (clock >= e.checkedAt + cfg.recheck && (force || InLastDay(e.dates, now)) ==> begins)
      && (!force && e.dates.nextUpdate.None? ==> (begins <==> clock >= e.checkedAt + Max(cfg.recheck, 3600 * SECOND)))
  {
    hide RefreshAt, Step, InLastQuarter, Timely;
    RefreshStarts(pieces, cfg, states[n], id, now, force);
    TimeToRefresh(pieces, cfg, states, actions, n, pieces.url(id), now);
  }

  /**
   An unforced look at a piece in memory that nobody is refreshing, not disturbed.
   With the gate open and `recheck` passed it always sends a request in the last
   day before nextUpdate, and never before the last quarter of the window; about a
   piece without a nextUpdate exactly when the last look is an hour ago.
   */
  lemma {:induction false} UnforcedLookAsks(pieces: Pieces, cfg: Config, states: seq<State>, actions: seq<Action>,
                                            id: Id, now: I64)
    returns (states': seq<State>, actions': seq<Action>)
    requires Run(pieces, cfg, states, actions)
    requires pieces.url(id) in states[|actions|].mem && Key(pieces.url(id), Refresh) !in states[|actions|].ops
    ensures Run(pieces, cfg, states', actions') && states < states'
    ensures actions + [StartRefresh(id, now, false)] <= actions'
    ensures var (s, t, key) := (states[|actions|], states'[|actions'|], Key(pieces.url(id), Refresh));
      var e := s.mem[key.url];
      && t.clock == s.clock
      && (At(t, key, Asking) ==> EndsAsking(states', key.url))
      && (At(t, key, Asking) ==> s.clock >= e.checkedAt + cfg.recheck && Open(cfg, s, key.url))
      && (At(t, key, Asking) && e.dates.nextUpdate.Some? ==> InLastDay(e.dates, now) || InLastQuarter(e.dates, now))
      && (InLastDay(e.dates, now) && s.clock >= e.checkedAt + cfg.recheck && Open(cfg, s, key.url) ==> At(t, key, Asking))
      && (e.dates.nextUpdate.None? ==>
            (At(t, key, Asking) <==> s.clock >= e.checkedAt + Max(cfg.recheck, 3600 * SECOND) && Open(cfg, s, key.url)))
  {
    hide Run, Open, EndsAsking, InLastQuarter, Timely;
    states', actions' := RefreshAsksExactly(pieces, cfg, states, actions, id, now, false);
    TimeToRefresh(pieces, cfg, states, actions, |actions|, pieces.url(id), now);
  }
}
