/**
 The cache's bound on cold fetches: a shared set of URLs being fetched, and a
 guard that takes its URL out when its request ends, however it ends. A
 request runs in two steps, with any other requests in between.
 */
module ColdSet {
  type Url = string

  const MAX_COLD := 16
  const MAX_KNOWN := 1024

  /** A request under way: the URL it asks for, and whether it holds the guard of that URL. */
  datatype Request = Request(url: Url, guarding: bool)

  datatype State = State(cold: set<Url>, known: set<Url>, requests: map<nat, Request>)

  /** How the store answered; a dropped connection counts as no piece. */
  datatype Outcome = Piece(shared: bool) | NoPiece

  datatype Action =
    | Arrive(id: nat, url: Url, inMemory: bool)
    | Leave(id: nat, outcome: Outcome)

  predicate Busy(s: State, url: Url, inMemory: bool) {
    !inMemory && |s.cold| >= MAX_COLD && url !in s.cold
  }

  predicate Enabled(s: State, a: Action) {
    match a
    case Arrive(id, _, _) => id !in s.requests
    case Leave(id, _) => id in s.requests
  }

  function ArriveStep(s: State, id: nat, url: Url, inMemory: bool): State {
    if Busy(s, url, inMemory) then s
    else
      var guarding := !inMemory && url !in s.cold;
      s.(cold := if guarding then s.cold + {url} else s.cold, requests := s.requests[id := Request(url, guarding)])
  }

  function Remembered(known: set<Url>, url: Url): set<Url> {
    if |known| < MAX_KNOWN then known + {url} else known
  }

  function LeaveStep(s: State, id: nat, outcome: Outcome): State
    requires id in s.requests
  {
    var r := s.requests[id];
    State(if r.guarding then s.cold - {r.url} else s.cold,
          if outcome == Piece(true) then Remembered(s.known, r.url) else s.known,
          s.requests - {id})
  }

  function Step(s: State, a: Action): State
    requires Enabled(s, a)
  {
    match a
    case Arrive(id, url, inMemory) => ArriveStep(s, id, url, inMemory)
    case Leave(id, outcome) => LeaveStep(s, id, outcome)
  }

  function Start(warm: set<Url>): State {
    State({}, warm, map[])
  }

  predicate Run(warm: set<Url>, states: seq<State>, actions: seq<Action>) {
    && |states| == |actions| + 1
    && states[0] == Start(warm)
    && forall i :: 0 <= i < |actions| ==> Enabled(states[i], actions[i]) && states[i + 1] == Step(states[i], actions[i])
  }

  /** A run goes on with the arrival of a request under a new number, and with the end of any request under way. */
  lemma {:induction false} RunGoesOn(warm: set<Url>, states: seq<State>, actions: seq<Action>, a: Action)
    requires Run(warm, states, actions)
    requires var s := states[|actions|]; a.id in s.requests <==> a.Leave?
    ensures Enabled(states[|actions|], a) && Run(warm, states + [Step(states[|actions|], a)], actions + [a])
  {}

  // ------------------------------------------------------------ the invariant

  /** The requests that hold a guard. */
  function Guards(requests: map<nat, Request>): (ids: set<nat>)
    ensures ids <= requests.Keys
  {
    set id | id in requests && requests[id].guarding
  }

  ghost predicate Guarded(requests: map<nat, Request>, url: Url) {
    exists id :: id in Guards(requests) && requests[id].url == url
  }

  /** The set and the live guards are in one-to-one correspondence. */
  ghost predicate OneToOne(s: State) {
    && (forall url :: url in s.cold <==> Guarded(s.requests, url))
    && (forall i, j :: i in Guards(s.requests) && j in Guards(s.requests) && s.requests[i].url == s.requests[j].url ==> i == j)
    && |s.cold| == |Guards(s.requests)|
  }

  ghost predicate Inv(s: State) {
    OneToOne(s) && |s.cold| <= MAX_COLD
  }

  lemma {:induction false} GuardsAfterArrival(requests: map<nat, Request>, id: nat, r: Request)
    requires id !in requests
    ensures Guards(requests[id := r]) == Guards(requests) + if r.guarding then {id} else {}
  {}

  lemma {:induction false} GuardsAfterLeaving(requests: map<nat, Request>, id: nat)
    ensures Guards(requests - {id}) == Guards(requests) - {id}
  {}

  lemma {:induction false} ArrivalKeepsCorrespondence(s: State, id: nat, r: Request, u: Url)
    requires OneToOne(s) && id !in s.requests
    ensures Guarded(s.requests[id := r], u) <==> u in s.cold || (r.guarding && u == r.url)
  {
    var after := s.requests[id := r];
    if Guarded(s.requests, u) {
      var i :| i in Guards(s.requests) && s.requests[i].url == u;
      assert i in Guards(after) && after[i].url == u;
    }
    if r.guarding {
      assert id in Guards(after);
    }
    if Guarded(after, u) {
      var i :| i in Guards(after) && after[i].url == u;
      assert i == id || i in Guards(s.requests);
    }
  }

  lemma {:induction false} ArrivalKeepsUnique(s: State, id: nat, r: Request, i: nat, j: nat)
    requires OneToOne(s) && id !in s.requests && (r.guarding ==> r.url !in s.cold)
    requires var after := s.requests[id := r]; i in Guards(after) && j in Guards(after) && after[i].url == after[j].url
    ensures i == j
  {
    if i != id {
      assert i in Guards(s.requests) && Guarded(s.requests, s.requests[i].url);
    }
    if j != id {
      assert j in Guards(s.requests) && Guarded(s.requests, s.requests[j].url);
    }
  }

  lemma {:induction false} ArrivalKeepsCount(s: State, id: nat, r: Request)
    requires OneToOne(s) && id !in s.requests && (r.guarding ==> r.url !in s.cold)
    ensures |Guards(s.requests[id := r])| == |if r.guarding then s.cold + {r.url} else s.cold|
  {
    GuardsAfterArrival(s.requests, id, r);
  }

  lemma {:induction false} ArrivalKeepsOneToOne(s: State, id: nat, r: Request)
    requires OneToOne(s) && id !in s.requests && (r.guarding ==> r.url !in s.cold)
    ensures OneToOne(s.(cold := if r.guarding then s.cold + {r.url} else s.cold, requests := s.requests[id := r]))
  {
    hide Guards, Guarded;
    var after := s.requests[id := r];
    forall u ensures Guarded(after, u) <==> u in s.cold || (r.guarding && u == r.url) {
      ArrivalKeepsCorrespondence(s, id, r, u);
    }
    forall i, j | i in Guards(after) && j in Guards(after) && after[i].url == after[j].url ensures i == j {
      ArrivalKeepsUnique(s, id, r, i, j);
    }
    ArrivalKeepsCount(s, id, r);
  }

  lemma {:induction false} ArrivalKeepsInv(s: State, id: nat, url: Url, inMemory: bool)
    requires Inv(s) && id !in s.requests
    ensures Inv(ArriveStep(s, id, url, inMemory))
  {
    hide OneToOne;
    if !Busy(s, url, inMemory) {
      ArrivalKeepsOneToOne(s, id, Request(url, !inMemory && url !in s.cold));
    }
  }

  lemma {:induction false} LeavingKeepsInv(s: State, id: nat, outcome: Outcome)
    requires Inv(s) && id in s.requests
    ensures Inv(LeaveStep(s, id, outcome))
  {
    var t := LeaveStep(s, id, outcome);
    GuardsAfterLeaving(s.requests, id);
    if s.requests[id].guarding {
      assert Guarded(s.requests, s.requests[id].url);
    }
    forall u ensures u in t.cold <==> Guarded(t.requests, u) {
      if Guarded(s.requests, u) {
        var i :| i in Guards(s.requests) && s.requests[i].url == u;
        assert i != id ==> i in Guards(t.requests) && t.requests[i].url == u;
      }
      if Guarded(t.requests, u) {
        var i :| i in Guards(t.requests) && t.requests[i].url == u;
        assert i in Guards(s.requests) && s.requests[i].url == u;
      }
    }
  }

  /** In every state of every run, with any interleaving of requests. */
  lemma {:induction false} RunKeepsInv(warm: set<Url>, states: seq<State>, actions: seq<Action>, n: nat)
    requires Run(warm, states, actions) && n < |states|
    ensures Inv(states[n])
  {
    if n == 0 {
      assert Guards(map[]) == {};
    } else {
      RunKeepsInv(warm, states, actions, n - 1);
      match actions[n - 1]
      case Arrive(id, url, inMemory) => ArrivalKeepsInv(states[n - 1], id, url, inMemory);
      case Leave(id, outcome) => LeavingKeepsInv(states[n - 1], id, outcome);
    }
  }

  /** Busy means sixteen other URLs are each held by a request under way; a URL being fetched is never busy. */
  lemma {:induction false} BusyMeans(warm: set<Url>, states: seq<State>, actions: seq<Action>, n: nat, url: Url,
                                     inMemory: bool)
    requires Run(warm, states, actions) && n < |states|
    ensures Busy(states[n], url, inMemory) <==>
      !inMemory && |Guards(states[n].requests)| == 16 && !Guarded(states[n].requests, url)
  {
    RunKeepsInv(warm, states, actions, n);
  }

  /** Nothing stays behind: with no guard alive the set is empty. */
  lemma {:induction false} EmptyWithoutGuards(warm: set<Url>, states: seq<State>, actions: seq<Action>, n: nat)
    requires Run(warm, states, actions) && n < |states|
    ensures states[n].cold == {} <==> forall id :: id in states[n].requests ==> !states[n].requests[id].guarding
  {
    RunKeepsInv(warm, states, actions, n);
    var s := states[n];
    if s.cold != {} {
      var url :| url in s.cold;
      assert Guarded(s.requests, url);
    } else {
      forall id | id in s.requests ensures !s.requests[id].guarding {
        assert id !in Guards(s.requests);
      }
    }
  }

  /** A request that ends frees its own URL if it fetched it, and never the URL another request is fetching. */
  lemma {:induction false} LeavingFreesItsOwn(warm: set<Url>, states: seq<State>, actions: seq<Action>, n: nat,
                                              id: nat, outcome: Outcome)
    requires Run(warm, states, actions) && n < |states| && id in states[n].requests
    ensures var after := LeaveStep(states[n], id, outcome);
      && (states[n].requests[id].guarding ==> states[n].requests[id].url !in after.cold)
      && forall other :: other in Guards(states[n].requests) && other != id ==> states[n].requests[other].url in after.cold
  {
    RunKeepsInv(warm, states, actions, n);
    var s := states[n];
    forall other | other in Guards(s.requests) && other != id ensures s.requests[other].url in LeaveStep(s, id, outcome).cold {
      assert Guarded(s.requests, s.requests[other].url);
      if s.requests[id].guarding {
        assert id in Guards(s.requests);
      }
    }
  }

  function Limit(warm: set<Url>): nat {
    if |warm| > 1024 then |warm| else 1024
  }

  /** The sweep never forgets a piece, and keeps no more than 1024 or what it was told to warm. */
  lemma {:induction false} KnownIsBounded(warm: set<Url>, states: seq<State>, actions: seq<Action>, n: nat)
    requires Run(warm, states, actions) && n < |states|
    ensures warm <= states[n].known && |states[n].known| <= Limit(warm)
  {
    if n > 0 {
      KnownIsBounded(warm, states, actions, n - 1);
    }
  }

  /** A request for `url` ends at this step with a piece others may ask for too, and there was room to remember it. */
  predicate Shares(s: State, a: Action, url: Url) {
    a.Leave? && a.id in s.requests && s.requests[a.id].url == url && a.outcome == Piece(true) && |s.known| < 1024
  }

  /** What the sweep keeps fresh: what it was told to warm, and each URL once served as a shared piece while there was room. */
  lemma {:induction false} KnownMeans(warm: set<Url>, states: seq<State>, actions: seq<Action>, n: nat, url: Url)
    requires Run(warm, states, actions) && n < |states|
    ensures url in states[n].known <==> url in warm || exists i :: 0 <= i < n && Shares(states[i], actions[i], url)
  {
    if n > 0 {
      KnownMeans(warm, states, actions, n - 1, url);
      assert actions[n - 1] == actions[n - 1];
      var shared := Shares(states[n - 1], actions[n - 1], url);
      assert url in states[n].known <==> url in states[n - 1].known || shared || (url in states[n - 1].known && !shared);
    }
  }

  /** What the bound does not cover: any number of requests may wait for one URL. */
  function Crowd(url: Url, n: nat): (s: State)
    ensures s.cold == {url} && forall id :: id in s.requests <==> 0 <= id <= n
    ensures |s.requests| == n + 1
  {
    ArriveStep(if n == 0 then Start({}) else Crowd(url, n - 1), n, url, false)
  }

  /** Such a crowd comes about: its members arrive one after the other. */
  lemma {:induction false} CrowdIsReached(url: Url, n: nat) returns (states: seq<State>, actions: seq<Action>)
    ensures Run({}, states, actions) && states[|actions|] == Crowd(url, n)
  {
    var before: State;
    if n == 0 {
      states, actions, before := [Start({})], [], Start({});
    } else {
      states, actions := CrowdIsReached(url, n - 1);
      before := Crowd(url, n - 1);
    }
    var a := Arrive(n, url, false);
    assert Enabled(before, a) && Step(before, a) == Crowd(url, n);
    states, actions := states + [Crowd(url, n)], actions + [a];
  }

  // ------------------------------------------------------------- the shared sets

  class Cache {
    var cold: set<Url>
    var known: set<Url>
    /** What each running request holds until its answer is sent. */
    var requests: map<nat, Request>

    function View(): State
      reads this
    {
      State(cold, known, requests)
    }

    constructor (warm: set<Url>)
      ensures View() == Start(warm)
    {
      cold, known, requests := {}, warm, map[];
    }

    /** Up to where the store is asked; false is the busy answer. */
    method Begin(id: nat, url: Url, inMemory: bool) returns (goes: bool)
      requires id !in requests
      modifies this
      ensures goes <==> !Busy(old(View()), url, inMemory)
      ensures View() == ArriveStep(old(View()), id, url, inMemory)
    {
      var guarding := false;
      if !inMemory {
        if |cold| >= MAX_COLD && url !in cold {
          return false;
        }
        guarding := url !in cold;
        cold := cold + {url};
      }
      requests := requests[id := Request(url, guarding)];
      goes := true;
    }

    method Remember(url: Url)
      modifies this`known
      ensures known == Remembered(old(known), url)
    {
      if |known| < MAX_KNOWN {
        known := known + {url};
      }
    }

    /** From the store's answer to the end of the request, where its guard is dropped. */
    method End(id: nat, outcome: Outcome)
      requires id in requests
      modifies this
      ensures View() == LeaveStep(old(View()), id, outcome)
    {
      var r := requests[id];
      if outcome == Piece(true) {
        Remember(r.url);
      }
      if r.guarding {
        cold := cold - {r.url};
      }
      requests := requests - {id};
    }
  }
}
