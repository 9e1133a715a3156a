/**
 A piece the vendor may not publish (a GCE endorsement of a measurement Google
 never built): what "none" means, and whose word it is.
 */
module Published {
  import opened Prelude
  import opened CollateralDates
  import opened Lookup
  import opened StoreSteps
  import opened StoreTiming

  predicate IsNotFound(failure: Failure) {
    failure.Unavailable? && failure.error.NotFound()
  }

  /** A lookup whose "not found" is an answer rather than an error. */
  function IfPublished(r: Result<Found, Failure>): Result<Option<Found>, Failure> {
    match r
    case Ok(found) => Ok(Some(found))
    case Err(e) => if IsNotFound(e) then Ok(None) else Err(e)
  }

  /** "None" exactly when there is no copy on hand and the fallback failed with a 404 or 410, of whomever. */
  lemma {:induction false} NoneMeans(pieces: Pieces, id: Id, floor: Option<U64>, now: I64, copies: seq<Candidate>,
                                     loaded: Result<Loaded, Failure>)
    ensures IfPublished(Answer(pieces, id, floor, now, copies, loaded)) == Ok(None)
       <==> copies == [] && loaded.Err? && IsNotFound(loaded.error)
  {
    assert copies == [] ==> AllVerify(pieces, id, copies) && DatesOf(pieces, id, copies) == [];
  }

  /** The answer to one request, `answer`, that ends a lookup with nothing on hand. */
  function AfterRequest(pieces: Pieces, cfg: Config, id: Id, direct: bool, answer: Result<Copy, HttpError>,
                        floor: Option<U64>, now: I64): Result<Option<Found>, Failure>
    requires answer.Err?
  {
    var stage := AfterReply(pieces, id, direct, Told(cfg, direct, answer), 0, 0);
    var failure := if stage.Recording? then stage.failure else stage.outcome.error;
    IfPublished(Answer(pieces, id, floor, now, [], Err(failure)))
  }

  /**
   Which replies read as "none": every 404 and 410, except the vendor's own about
   a piece the evidence names. So one that reads so is the vendor's exactly when
   it came directly, and then the piece is one the evidence does not name.
   */
  lemma {:induction false} NoneOfAReply(pieces: Pieces, cfg: Config, id: Id, direct: bool, answer: Result<Copy, HttpError>,
                                        floor: Option<U64>, now: I64)
    requires answer.Err?
    ensures AfterRequest(pieces, cfg, id, direct, answer, floor, now) == Ok(None)
       <==> answer.error.NotFound() && !(direct && pieces.namedByEvidence(id))
  {
    var stage := AfterReply(pieces, id, direct, Told(cfg, direct, answer), 0, 0);
    var failure := if stage.Recording? then stage.failure else stage.outcome.error;
    NoneMeans(pieces, id, floor, now, [], Err(failure));
  }

  const A_404 := HttpError(Some(404), None)

  /** Where the documentation fails: a cache's 404 about a piece the evidence does not name is taken as "not published". */
  lemma {:induction false} ACachesNotFoundIsTaken(pieces: Pieces, cfg: Config, endorsement: Id, floor: Option<U64>, now: I64)
    requires !pieces.namedByEvidence(endorsement)
    ensures AfterRequest(pieces, cfg, endorsement, false, Err(A_404), floor, now) == Ok(None)
  {
    NoneOfAReply(pieces, cfg, endorsement, false, Err(A_404), floor, now);
  }

  // ------------------------------------------------------------------ over runs

  /** This reply says 404 or 410 and is not the vendor's own word about a piece the evidence names. */
  predicate SaysNotFound(pieces: Pieces, s: State, a: Action, key: Key) {
    && a.Reply? && a.key == key && key in s.ops
    && a.answer.Err? && a.answer.error.NotFound()
    && !(a.direct && pieces.namedByEvidence(s.ops[key].id))
  }

  predicate EndsNotFound(s: State, key: Key) {
    key in s.ops && s.ops[key].stage.Done? && s.ops[key].stage.outcome.Err? && IsNotFound(s.ops[key].stage.outcome.error)
  }

  /** No 404 or 410 is ever recorded as an outage. */
  predicate RecordsAreClean(s: State) {
    && (forall url :: url in s.failed ==> !IsNotFound(s.failed[url].1))
    && (forall key :: key in s.ops && s.ops[key].stage.Recording? ==> !IsNotFound(s.ops[key].stage.failure))
  }

  lemma {:induction false} ReplyIsNotFound(pieces: Pieces, cfg: Config, s: State, a: Action)
    requires Enabled(pieces, s, a) && a.Reply?
    ensures var t := Step(pieces, cfg, s, a);
      && (EndsNotFound(t, a.key) <==> SaysNotFound(pieces, s, a, a.key))
      && (t.ops[a.key].stage.Recording? ==> !IsNotFound(t.ops[a.key].stage.failure))
      && t.failed == s.failed
  {}

  lemma {:induction false} StepKeepsRecording(pieces: Pieces, cfg: Config, s: State, a: Action, key: Key)
    requires Enabled(pieces, s, a) && RecordsAreClean(s) && !a.Reply?
    requires var t := Step(pieces, cfg, s, a); key in t.ops && t.ops[key].stage.Recording?
    ensures !IsNotFound(Step(pieces, cfg, s, a).ops[key].stage.failure)
  {
    hide RefreshAt, HostOf, Check, Due, StandsFor, AfterReply, Window;
    if !Touches(pieces, a, key) {
      OthersUntouched(pieces, cfg, s, a, key);
    }
  }

  lemma {:induction false} StepKeepsRecordsClean(pieces: Pieces, cfg: Config, s: State, a: Action)
    requires Enabled(pieces, s, a) && RecordsAreClean(s)
    ensures RecordsAreClean(Step(pieces, cfg, s, a))
  {
    hide Step, Enabled, IsNotFound;
    var t := Step(pieces, cfg, s, a);
    forall key | key in t.ops && t.ops[key].stage.Recording? ensures !IsNotFound(t.ops[key].stage.failure) {
      if !a.Reply? {
        StepKeepsRecording(pieces, cfg, s, a, key);
      } else if key == a.key {
        ReplyIsNotFound(pieces, cfg, s, a);
      } else {
        OthersUntouched(pieces, cfg, s, a, key);
      }
    }
    FailedStaysClean(pieces, cfg, s, a);
  }

  lemma {:induction false} FailedStaysClean(pieces: Pieces, cfg: Config, s: State, a: Action)
    requires Enabled(pieces, s, a) && RecordsAreClean(s)
    ensures forall url :: url in Step(pieces, cfg, s, a).failed ==> !IsNotFound(Step(pieces, cfg, s, a).failed[url].1)
  {}

  lemma {:induction false} RunKeepsRecordsClean(pieces: Pieces, cfg: Config, states: seq<State>, actions: seq<Action>, n: nat)
    requires Run(pieces, cfg, states, actions) && n <= |actions|
    ensures RecordsAreClean(states[n])
  {
    if n > 0 {
      RunKeepsRecordsClean(pieces, cfg, states, actions, n - 1);
      StepKeepsRecordsClean(pieces, cfg, states[n - 1], actions[n - 1]);
    }
  }

  lemma {:induction false} NotFoundStep(pieces: Pieces, cfg: Config, s: State, a: Action, key: Key)
    requires Enabled(pieces, s, a) && RecordsAreClean(s)
    requires EndsNotFound(Step(pieces, cfg, s, a), key) && !EndsNotFound(s, key)
    ensures SaysNotFound(pieces, s, a, key)
  {
    if !Touches(pieces, a, key) {
      OthersUntouched(pieces, cfg, s, a, key);
    } else if a.Reply? {
      ReplyIsNotFound(pieces, cfg, s, a);
    }
  }

  /** In every run, an operation that ends in "not found" had that very answer from the upstream. */
  lemma {:induction false} NotFoundIsAReply(pieces: Pieces, cfg: Config, states: seq<State>, actions: seq<Action>,
                                            n: nat, key: Key) returns (i: nat)
    requires Run(pieces, cfg, states, actions) && n <= |actions| && EndsNotFound(states[n], key)
    ensures i < n && SaysNotFound(pieces, states[i], actions[i], key)
  {
    if EndsNotFound(states[n - 1], key) {
      i := NotFoundIsAReply(pieces, cfg, states, actions, n - 1, key);
    } else {
      RunKeepsRecordsClean(pieces, cfg, states, actions, n - 1);
      NotFoundStep(pieces, cfg, states[n - 1], actions[n - 1], key);
      i := n - 1;
    }
  }

  /** Every reply of the run came from a vendor itself: the store has no cache as its upstream. */
  predicate NoCache(actions: seq<Action>) {
    forall i :: 0 <= i < |actions| && actions[i].Reply? ==> actions[i].direct
  }

  /**
   Whose word "none" is. With no cache in between it is the vendor's own 404 or
   410, and only about a piece the evidence does not name; about one it names,
   "none" is always a cache's.
   */
  lemma {:induction false} NoneIsTheVendorsWithoutACache(pieces: Pieces, cfg: Config, states: seq<State>, actions: seq<Action>,
                                                         n: nat, key: Key, id: Id, floor: Option<U64>, now: I64)
    requires Run(pieces, cfg, states, actions) && n <= |actions| && key in states[n].ops
    requires states[n].ops[key].stage.Done? && states[n].ops[key].stage.outcome.Err?
    requires IfPublished(Answer(pieces, id, floor, now, [], Err(states[n].ops[key].stage.outcome.error))) == Ok(None)
    ensures exists i :: 0 <= i < n && SaysNotFound(pieces, states[i], actions[i], key)
              && (NoCache(actions) ==> actions[i].direct && !pieces.namedByEvidence(states[i].ops[key].id))
              && (pieces.namedByEvidence(states[i].ops[key].id) ==> !actions[i].direct)
  {
    NoneMeans(pieces, id, floor, now, [], Err(states[n].ops[key].stage.outcome.error));
    var i := NotFoundIsAReply(pieces, cfg, states, actions, n, key);
  }
}
