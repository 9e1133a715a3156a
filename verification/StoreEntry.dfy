/**
 What one lookup gets from the native store over a run: the entry in memory, the
 one a refresh leaves there, or the one a load leaves there; and what successive
 lookups of a piece get.
 */
module StoreEntry {
  import opened Prelude
  import opened CollateralDates
  import opened StoreSteps
  import opened StoreSafety
  import opened StoreTiming
  import opened Lookup

  /** The states from the first look at memory to the answer. */
  datatype Span = Span(from: nat, to: nat)

  /** A refresh that this caller began at step `m` and that ended at step `n`. */
  predicate OwnRefresh(pieces: Pieces, states: seq<State>, actions: seq<Action>, id: Id, now: I64, m: int, n: int)
    requires |states| == |actions| + 1
  {
    var key := Key(pieces.url(id), Refresh);
    && 0 <= m < n < |actions|
    && actions[m] == StartRefresh(id, now, false) && key !in states[m].ops
    && (forall k :: m < k <= n ==> key in states[k].ops && !(k < n && Ends(actions[k], key)))
    && actions[n] == Finish(key) && states[n].ops[key].stage.Done?
  }

  /** A refresh that finds the entry no longer due, because somebody else looked first, changes nothing. */
  predicate NoRefresh(pieces: Pieces, cfg: Config, s: State, id: Id, now: I64) {
    var url := pieces.url(id);
    CanAge(s, url) && Key(url, Refresh) !in s.ops && !Due(cfg, s.mem[url], s.clock, now, false)
  }

  /** What a caller is told of the entry a refresh left: where it is from when the refresh replaced it. */
  function Refreshed(op: Op, after: Entry): Loaded
    requires op.stage.Done?
  {
    Loaded(after, if KeepsFetched(op) then after.origin else Memory)
  }

  /**
   `r` is an answer the store can give to a lookup of `id` over the states of
   `span`. A lookup that finds the piece in memory answers with it or, when it is
   due, with what a refresh leaves. One that does not find it joins or begins the
   load of its URL, and answers with what is found or left in memory, or fails as
   the load does.
   */
  ghost predicate EntryAnswers(pieces: Pieces, cfg: Config, states: seq<State>, actions: seq<Action>, span: Span,
                               id: Id, now: I64, r: Result<Loaded, Failure>)
    requires Run(pieces, cfg, states, actions) && span.from <= span.to <= |actions|
  {
    var url := pieces.url(id);
    var s := states[span.from];
    if url in s.mem then
      (RunKeepsInv(pieces, cfg, states, actions, span.from);
       if !Due(cfg, s.mem[url], s.clock, now, false) then r == Ok(Loaded(s.mem[url], Memory))
       else RefreshAnswers(pieces, cfg, states, actions, span, id, now, r))
    else
      LoadAnswers(states, actions, span, url, r)
  }

  ghost predicate RefreshAnswers(pieces: Pieces, cfg: Config, states: seq<State>, actions: seq<Action>, span: Span,
                                 id: Id, now: I64, r: Result<Loaded, Failure>)
    requires Run(pieces, cfg, states, actions) && span.from <= span.to <= |actions|
  {
    var url := pieces.url(id);
    || (exists n :: span.from <= n <= span.to && NoRefresh(pieces, cfg, states[n], id, now) && r == Ok(Loaded(states[n].mem[url], Memory)))
    || (exists m, n :: span.from <= m < n < span.to && OwnRefresh(pieces, states, actions, id, now, m, n)
          && url in states[n + 1].mem && r == Ok(Refreshed(states[n].ops[Key(url, Refresh)], states[n + 1].mem[url])))
  }

  ghost predicate LoadAnswers(states: seq<State>, actions: seq<Action>, span: Span, url: Url, r: Result<Loaded, Failure>)
    requires |states| == |actions| + 1 && span.from <= span.to <= |actions|
  {
    || (exists n :: span.from <= n <= span.to && url in states[n].mem && r == Ok(Loaded(states[n].mem[url], states[n].mem[url].origin)))
    || (exists n :: span.from <= n < span.to && FailedLoad(states[n], actions[n], url) && r == Err(states[n].ops[actions[n].key].stage.outcome.error))
  }

  /** The load of `url` ends with a failure and nothing to fall back on. */
  predicate FailedLoad(s: State, a: Action, url: Url) {
    && a == Finish(Key(url, Load)) && a.key in s.ops
    && s.ops[a.key].kept.None? && s.ops[a.key].stage.Done? && s.ops[a.key].stage.outcome.Err?
  }

  /**
   An answer is the entry memory held at some moment between the question and the
   answer, so it verified as a piece of its URL; a piece once in memory is always
   answered.
   */
  lemma {:induction false} AnswersAreFromMemory(pieces: Pieces, cfg: Config, states: seq<State>, actions: seq<Action>, span: Span,
                                                id: Id, now: I64, r: Result<Loaded, Failure>)
    returns (n: nat)
    requires Run(pieces, cfg, states, actions) && span.from <= span.to <= |actions|
    requires EntryAnswers(pieces, cfg, states, actions, span, id, now, r)
    ensures span.from <= n <= span.to
    ensures r.Ok? ==> pieces.url(id) in states[n].mem && states[n].mem[pieces.url(id)] == r.value.entry
    ensures r.Ok? ==> VerifiedAt(pieces, pieces.url(id), r.value.entry)
    ensures pieces.url(id) in states[span.from].mem ==> r.Ok?
  {
    hide Run, Due, FailedLoad, VerifiedAt;
    n := span.from;
    if r.Ok? {
      n :| span.from <= n <= span.to && pieces.url(id) in states[n].mem && states[n].mem[pieces.url(id)] == r.value.entry;
      MemoryIsVerified(pieces, cfg, states, actions, n, pieces.url(id));
    }
  }

  /** The entries two lookups of one URL get, one after the other, never go back; and the second gets one if the first did. */
  lemma {:induction false} LaterEntriesAreNotOlder(pieces: Pieces, cfg: Config, states: seq<State>, actions: seq<Action>,
                                                   first: Span, id: Id, now: I64, r: Result<Loaded, Failure>,
                                                   second: Span, id': Id, now': I64, r': Result<Loaded, Failure>)
    requires Run(pieces, cfg, states, actions) && pieces.url(id') == pieces.url(id)
    requires first.from <= first.to <= second.from <= second.to <= |actions|
    requires EntryAnswers(pieces, cfg, states, actions, first, id, now, r) && r.Ok?
    requires EntryAnswers(pieces, cfg, states, actions, second, id', now', r')
    ensures r'.Ok? && r'.value.entry.dates.NotOlderThan(r.value.entry.dates)
  {
    hide EntryAnswers, Run, Dates.NotOlderThan;
    var n := AnswersAreFromMemory(pieces, cfg, states, actions, first, id, now, r);
    MemoryNeverGoesBack(pieces, cfg, states, actions, n, second.from, pieces.url(id));
    var n' := AnswersAreFromMemory(pieces, cfg, states, actions, second, id', now', r');
    MemoryNeverGoesBack(pieces, cfg, states, actions, n, n', pieces.url(id));
  }

  // ------------------------------------------------------------ the verdict's side

  /** The dates are in the copy: they do not depend on which piece of a URL it verifies as. */
  ghost predicate DatesAreTheCopys(pieces: Pieces, url: Url) {
    forall id, id', copy :: pieces.url(id) == url && pieces.url(id') == url ==>
      var (a, b) := (pieces.verify(id, copy), pieces.verify(id', copy));
      a.Some? && b.Some? ==> a == b
  }

  /** Then what the store loads is dated alike for whoever asks, as the comparison with copies on hand needs. */
  lemma {:induction false} LoadedIsDatedAlike(pieces: Pieces, cfg: Config, states: seq<State>, actions: seq<Action>, span: Span,
                                              id: Id, now: I64, r: Result<Loaded, Failure>)
    requires Run(pieces, cfg, states, actions) && span.from <= span.to <= |actions|
    requires EntryAnswers(pieces, cfg, states, actions, span, id, now, r) && DatesAreTheCopys(pieces, pieces.url(id))
    ensures DatedAlike(pieces, id, r)
  {
    hide EntryAnswers, Run;
    var n := AnswersAreFromMemory(pieces, cfg, states, actions, span, id, now, r);
  }

  /**
   Successive lookups of one piece with nothing held or attached never go back: the
   second is no older in version and issue time, or it is refused because the copy
   now in memory, of another piece at the same URL, does not verify as this one.
   */
  lemma {:induction false} LookupsNeverGoBack(pieces: Pieces, cfg: Config, states: seq<State>, actions: seq<Action>, id: Id,
                                              first: Span, floor: Option<U64>, now: I64, r: Result<Loaded, Failure>,
                                              second: Span, floor': Option<U64>, now': I64, r': Result<Loaded, Failure>)
    requires Run(pieces, cfg, states, actions) && first.from <= first.to <= second.from <= second.to <= |actions|
    requires EntryAnswers(pieces, cfg, states, actions, first, id, now, r)
    requires EntryAnswers(pieces, cfg, states, actions, second, id, now', r')
    requires DatesAreTheCopys(pieces, pieces.url(id))
    requires Answer(pieces, id, floor, now, [], r).Ok?
    ensures r'.Ok?
    ensures var (found, found') := (Answer(pieces, id, floor, now, [], r), Answer(pieces, id, floor', now', [], r'));
      match pieces.verify(id, r'.value.entry.copy)
      case Some(dates) => found'.Ok? && found'.value.dates == dates && dates.NotOlderThan(found.value.dates)
      case None => found' == Err(Refused)
  {
    hide EntryAnswers, Run, Dates.NotOlderThan, Used;
    assert AllVerify(pieces, id, []) && DatesOf(pieces, id, []) == [];
    LoadedIsDatedAlike(pieces, cfg, states, actions, first, id, now, r);
    LoadedIsDatedAlike(pieces, cfg, states, actions, second, id, now', r');
    LaterEntriesAreNotOlder(pieces, cfg, states, actions, first, id, now, r, second, id, now', r');
  }
}
