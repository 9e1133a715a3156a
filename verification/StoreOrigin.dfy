/**
 Where the copies of the store are from: every entry, in memory or in the hands
 of an operation, was read from disk or carried by a reply about its URL, at a
 step of the run that can be named.
 */
module StoreOrigin {
  import opened Prelude
  import opened CollateralDates
  import opened StoreSteps
  import opened StoreSafety
  import opened StoreTiming

  /**
   This step brings the copy of `e` in: a load read it from disk, or a reply about
   `url` carried it, directly from the vendor or through a cache. It verified as
   the piece of that operation, and its refresh time was drawn then.
   */
  predicate Brings(pieces: Pieces, s: State, a: Action, url: Url, e: Entry) {
    match a
    case StartLoad(id, _, disk, random) =>
      && pieces.url(id) == url && disk == Some(e.copy) && VerifiedFor(pieces, id, e)
      && e.origin == Disk && e.refreshAt == RefreshAt(e.dates, random)
    case Reply(key, direct, answer, random) =>
      && key.url == url && key in s.ops && answer == Ok(e.copy) && VerifiedFor(pieces, s.ops[key].id, e)
      && e.origin == (if direct then Vendor else Cache) && e.refreshAt == RefreshAt(e.dates, random)
    case _ => false
  }

  /** The same entry, looked at whenever. */
  predicate SameEntry(a: Entry, b: Entry) {
    a.copy == b.copy && a.dates == b.dates && a.origin == b.origin && a.refreshAt == b.refreshAt
  }

  /** An operation falls back on `e`, or has it as its answer. */
  predicate InHand(op: Op, e: Entry) {
    || (op.kept.Some? && SameEntry(op.kept.value, e))
    || (op.stage.Done? && op.stage.outcome.Ok? && SameEntry(op.stage.outcome.value, e))
  }

  predicate Holds(s: State, url: Url, e: Entry) {
    || (url in s.mem && SameEntry(s.mem[url], e))
    || exists lane :: Key(url, lane) in s.ops && InHand(s.ops[Key(url, lane)], e)
  }

  lemma {:induction false} ReplyBrings(pieces: Pieces, cfg: Config, s: State, a: Action, e: Entry)
    requires Enabled(pieces, s, a) && a.Reply? && InHand(Step(pieces, cfg, s, a).ops[a.key], e)
    ensures InHand(s.ops[a.key], e) || Brings(pieces, s, a, a.key.url, e)
  {
    hide RefreshAt, HostOf, PauseOf;
  }

  lemma {:induction false} StartBrings(pieces: Pieces, cfg: Config, s: State, a: Action, e: Entry)
    requires Enabled(pieces, s, a) && (a.StartLoad? || a.StartRefresh?)
    requires var key := Key(pieces.url(a.id), if a.StartLoad? then Load else Refresh);
      key in Step(pieces, cfg, s, a).ops && InHand(Step(pieces, cfg, s, a).ops[key], e)
    ensures Holds(s, pieces.url(a.id), e) || Brings(pieces, s, a, pieces.url(a.id), e)
  {
    hide RefreshAt, Due;
  }

  lemma {:induction false} MovesBringNothing(pieces: Pieces, cfg: Config, s: State, a: Action, e: Entry)
    requires Enabled(pieces, s, a) && Moves(a) && !a.Reply? && InHand(Step(pieces, cfg, s, a).ops[a.key], e)
    ensures InHand(s.ops[a.key], e)
  {
    hide HostOf, FailureStands, Window, SameEntry, RefreshAt, ReplyStep, StartLoadStep, StartRefreshStep, FinishStep, HostState;
  }

  lemma {:induction false} FinishBringsNothing(pieces: Pieces, cfg: Config, s: State, key: Key, url: Url, e: Entry)
    requires Enabled(pieces, s, Finish(key))
    requires var t := Step(pieces, cfg, s, Finish(key)); url in t.mem && SameEntry(t.mem[url], e)
    ensures Holds(s, url, e)
  {
    var t := Step(pieces, cfg, s, Finish(key));
    if key.url == url && Outcome(key, s.ops[key], s.clock).Some? {
      assert InHand(s.ops[Key(url, key.lane)], e);
    }
  }

  /** One step adds nothing but what it brings in. */
  lemma {:induction false} StepBrings(pieces: Pieces, cfg: Config, s: State, a: Action, url: Url, e: Entry)
    requires Enabled(pieces, s, a) && Holds(Step(pieces, cfg, s, a), url, e)
    ensures Holds(s, url, e) || Brings(pieces, s, a, url, e)
  {
    hide Step, Brings, SameEntry;
    var t := Step(pieces, cfg, s, a);
    if lane :| Key(url, lane) in t.ops && InHand(t.ops[Key(url, lane)], e) {
      var key := Key(url, lane);
      if !Touches(pieces, a, key) {
        OthersUntouched(pieces, cfg, s, a, key);
      } else if a.Reply? {
        ReplyBrings(pieces, cfg, s, a, e);
      } else if a.StartLoad? || a.StartRefresh? {
        StartBrings(pieces, cfg, s, a, e);
      } else if Moves(a) {
        MovesBringNothing(pieces, cfg, s, a, e);
      } else {
        EndsFree(pieces, cfg, s, a, key);
      }
    } else if a.Finish? {
      FinishBringsNothing(pieces, cfg, s, a.key, url, e);
    } else {
      OnlyFinishWritesMemory(pieces, cfg, s, a);
    }
  }

  lemma {:induction false} EndsFree(pieces: Pieces, cfg: Config, s: State, a: Action, key: Key)
    requires Enabled(pieces, s, a) && Ends(a, key)
    ensures key !in Step(pieces, cfg, s, a).ops
  {}

  /** Every entry of every run was brought in for its URL, by a step before. */
  lemma {:induction false} EntriesAreBroughtIn(pieces: Pieces, cfg: Config, states: seq<State>, actions: seq<Action>,
                                               n: nat, url: Url, e: Entry)
    returns (i: nat)
    requires Run(pieces, cfg, states, actions) && n <= |actions| && Holds(states[n], url, e)
    ensures i < n && Brings(pieces, states[i], actions[i], url, e)
    decreases n
  {
    hide Step, Brings, Enabled;
    assert n > 0 by { NothingAtFirst(url, e); }
    if Holds(states[n - 1], url, e) {
      i := EntriesAreBroughtIn(pieces, cfg, states, actions, n - 1, url, e);
    } else {
      StepBrings(pieces, cfg, states[n - 1], actions[n - 1], url, e);
      i := n - 1;
    }
  }

  lemma {:induction false} NothingAtFirst(url: Url, e: Entry)
    ensures !Holds(INITIAL, url, e)
  {}

  /**
   What an entry in memory says of its origin is true: "vendor" only of a copy the
   vendor itself sent about this URL, "cache" only of one a cache sent, "disk" only
   of one read from disk, and nothing else is said.
   */
  lemma {:induction false} OriginsAreTrue(pieces: Pieces, cfg: Config, states: seq<State>, actions: seq<Action>,
                                          n: nat, url: Url)
    returns (i: nat)
    requires Run(pieces, cfg, states, actions) && n <= |actions| && url in states[n].mem
    ensures i < n
    ensures var (e, a) := (states[n].mem[url], actions[i]);
      || (e.origin == Vendor && a.Reply? && a.key.url == url && a.direct && a.answer == Ok(e.copy))
      || (e.origin == Cache && a.Reply? && a.key.url == url && !a.direct && a.answer == Ok(e.copy))
      || (e.origin == Disk && a.StartLoad? && pieces.url(a.id) == url && a.disk == Some(e.copy))
    ensures exists random :: states[n].mem[url].refreshAt == RefreshAt(states[n].mem[url].dates, random)
  {
    hide Run;
    assert Holds(states[n], url, states[n].mem[url]);
    i := EntriesAreBroughtIn(pieces, cfg, states, actions, n, url, states[n].mem[url]);
  }
}
