/**
 The bound on cold fetches: how many pieces held nowhere are fetched from one
 vendor host in any interval of time.
 */
module ColdRate {
  import opened Prelude
  import opened StoreSteps
  import opened StoreTiming
  import opened StorePause

  /** An admitted cold fetch: when, in which second it was counted, and as the how-manieth. */
  datatype Admission = Admission(at: Instant, second: Instant, nth: nat)

  /** The step counts a cold fetch of `host` and lets it through. */
  predicate Admits(pieces: Pieces, s: State, a: Action, host: string) {
    a.Admit? && At(s, a.key, AtAdmit) && HostOf(a.key.url) == host && Window(HostNamed(s, host), s.clock).cold < COLD_PER_SECOND
  }

  function AdmissionAt(s: State, host: string): Admission {
    var w := Window(HostNamed(s, host), s.clock);
    Admission(s.clock, w.second.value, w.cold + 1)
  }

  /** The cold fetches of `host` admitted in the first `n` steps of a run. */
  function Admissions(pieces: Pieces, states: seq<State>, actions: seq<Action>, host: string, n: nat): seq<Admission>
    requires |states| == |actions| + 1 && n <= |actions|
  {
    if n == 0 then []
    else Admissions(pieces, states, actions, host, n - 1) + Admitted(pieces, states[n - 1], actions[n - 1], host)
  }

  function Admitted(pieces: Pieces, s: State, a: Action, host: string): seq<Admission> {
    if Admits(pieces, s, a, host) then [AdmissionAt(s, host)] else []
  }

  // ------------------------------------------------------------- the invariant

  predicate AdmissionOk(a: Admission) {
    1 <= a.nth <= 10 && a.second <= a.at < a.second + SECOND
  }

  /** `b` comes right after `a`: counted in the same second, or in one that starts a second later or more. */
  predicate Follows(a: Admission, b: Admission) {
    && a.at <= b.at
    && if b.nth == 1 then b.second >= a.second + SECOND else b.second == a.second && b.nth == a.nth + 1
  }

  predicate WellCounted(log: seq<Admission>) {
    && (forall i :: 0 <= i < |log| ==> AdmissionOk(log[i]))
    && (forall i :: 0 < i < |log| ==> Follows(log[i - 1], log[i]))
  }

  /** The host's counter is that of the last admission. */
  predicate Counts(h: Host, clock: Instant, log: seq<Admission>) {
    && WellCounted(log)
    && (h.second.None? <==> log == [])
    && (log == [] ==> h.cold == 0)
    && (log != [] ==> var last := log[|log| - 1];
          h.second == Some(last.second) && h.cold == last.nth && last.at <= clock)
  }

  lemma {:induction false} AdmissionKeepsCount(h: Host, clock: Instant, log: seq<Admission>)
    requires Counts(h, clock, log)
    ensures var w := Window(h, clock);
      && (w.cold < COLD_PER_SECOND ==>
            Counts(w.(cold := w.cold + 1), clock, log + [Admission(clock, w.second.value, w.cold + 1)]))
      && (w.cold >= COLD_PER_SECOND ==> w == h)
  {}

  lemma {:induction false} OnlyAdmitCounts(pieces: Pieces, cfg: Config, s: State, a: Action, host: string)
    requires Enabled(pieces, s, a) && !a.Admit?
    ensures var (h, h') := (HostNamed(s, host), HostNamed(Step(pieces, cfg, s, a), host));
      h'.second == h.second && h'.cold == h.cold
    ensures Step(pieces, cfg, s, a).clock >= s.clock
  {}

  lemma {:induction false} AdmitCounts(s: State, key: Key, host: string)
    requires At(s, key, AtAdmit)
    ensures var w := Window(HostNamed(s, host), s.clock);
      HostNamed(AdmitStep(s, key), host) ==
        if HostOf(key.url) != host then HostNamed(s, host)
        else if w.cold < COLD_PER_SECOND then w.(cold := w.cold + 1)
        else w
  {}

  /** Time passing, or a pause, changes nothing about the count. */
  lemma {:induction false} CountLasts(h: Host, h': Host, clock: Instant, clock': Instant, log: seq<Admission>)
    requires Counts(h, clock, log) && h'.second == h.second && h'.cold == h.cold && clock' >= clock
    ensures Counts(h', clock', log)
  {}

  lemma {:induction false} AdmitKeepsCount(pieces: Pieces, cfg: Config, s: State, a: Action, host: string,
                                           log: seq<Admission>)
    requires Enabled(pieces, s, a) && a.Admit? && Counts(HostNamed(s, host), s.clock, log)
    ensures Counts(HostNamed(Step(pieces, cfg, s, a), host), s.clock, log + Admitted(pieces, s, a, host))
  {
    hide Counts, Window, HostOf;
    assert log + [] == log;
    AdmitCounts(s, a.key, host);
    AdmissionKeepsCount(HostNamed(s, host), s.clock, log);
  }

  lemma {:induction false} StepKeepsCount(pieces: Pieces, cfg: Config, s: State, a: Action, host: string,
                                          log: seq<Admission>)
    requires Enabled(pieces, s, a) && Counts(HostNamed(s, host), s.clock, log)
    ensures var t := Step(pieces, cfg, s, a);
      Counts(HostNamed(t, host), t.clock, log + Admitted(pieces, s, a, host))
  {
    hide Counts, HostNamed;
    var t := Step(pieces, cfg, s, a);
    if a.Admit? {
      AdmitKeepsCount(pieces, cfg, s, a, host, log);
    } else {
      assert log + [] == log;
      OnlyAdmitCounts(pieces, cfg, s, a, host);
      CountLasts(HostNamed(s, host), HostNamed(t, host), s.clock, t.clock, log);
    }
  }

  lemma {:induction false} RunIsWellCounted(pieces: Pieces, cfg: Config, states: seq<State>, actions: seq<Action>,
                                            host: string, n: nat)
    requires Run(pieces, cfg, states, actions) && n <= |actions|
    ensures Counts(HostNamed(states[n], host), states[n].clock, Admissions(pieces, states, actions, host, n))
  {
    if n > 0 {
      RunIsWellCounted(pieces, cfg, states, actions, host, n - 1);
      StepKeepsCount(pieces, cfg, states[n - 1], actions[n - 1], host, Admissions(pieces, states, actions, host, n - 1));
    }
  }

  /** Ten cold fetches of the host were admitted in the second that is not over at `clock`. */
  predicate SecondIsFull(log: seq<Admission>, clock: Instant) {
    log != [] && var last := log[|log| - 1]; last.nth == 10 && clock < last.second + SECOND
  }

  lemma {:induction false} FullWindow(h: Host, clock: Instant, log: seq<Admission>)
    requires Counts(h, clock, log)
    ensures Window(h, clock).cold >= COLD_PER_SECOND <==> SecondIsFull(log, clock)
    ensures Window(Window(h, clock), clock + SECOND).cold == 0
  {}

  /**
   In any run a cold fetch is turned away exactly when the second is full. It is
   told to wait one second, and then the next second has begun with none counted.
   */
  lemma {:induction false} TurnedAwayMeans(pieces: Pieces, cfg: Config, states: seq<State>, actions: seq<Action>,
                                           n: nat, key: Key)
    requires Run(pieces, cfg, states, actions) && n < |actions| && actions[n] == Admit(key)
    ensures key in states[n + 1].ops
    ensures var (stage, host) := (states[n + 1].ops[key].stage, HostOf(key.url));
      var full := SecondIsFull(Admissions(pieces, states, actions, host, n), states[n].clock);
      && (if full then IsWait(stage, 1) else stage == Asking)
      && (full ==> Window(HostNamed(states[n + 1], host), states[n + 1].clock + SECOND).cold == 0)
  {
    hide HostOf, Counts, Window;
    var host := HostOf(key.url);
    RunIsWellCounted(pieces, cfg, states, actions, host, n);
    FullWindow(HostNamed(states[n], host), states[n].clock, Admissions(pieces, states, actions, host, n));
  }

  // ----------------------------------------------------------------- the bound

  lemma {:induction false} SameSecondOrLater(log: seq<Admission>, i: nat, j: nat)
    requires WellCounted(log) && i <= j < |log|
    ensures log[j].second >= log[i].second + SECOND || (log[j].second == log[i].second && log[j].nth == log[i].nth + (j - i))
    ensures log[i].at <= log[j].at
    decreases j
  {
    if i < j {
      SameSecondOrLater(log, i, j - 1);
      assert Follows(log[j - 1], log[j]);
    }
  }

  /** Ten admissions later, a second has passed. */
  lemma {:induction false} TenPerSecond(log: seq<Admission>, i: nat, m: nat)
    requires WellCounted(log) && i + COLD_PER_SECOND * m < |log|
    ensures log[i + COLD_PER_SECOND * m].second >= log[i].second + m * SECOND
  {
    if m > 0 {
      TenPerSecond(log, i, m - 1);
      var k := i + COLD_PER_SECOND * (m - 1);
      SameSecondOrLater(log, k, k + COLD_PER_SECOND);
      assert AdmissionOk(log[k]) && AdmissionOk(log[k + COLD_PER_SECOND]);
    }
  }

  function CeilSeconds(length: nat): (n: nat)
    ensures n * SECOND >= length && (n > 0 ==> (n - 1) * SECOND < length)
  {
    (length + SECOND - 1) / SECOND
  }

  /** Which admissions fall into [from, from + length]. */
  function Within(log: seq<Admission>, from: Instant, length: nat): set<nat> {
    set k: nat | k < |log| && from <= log[k].at <= from + length
  }

  lemma {:induction false} FarApart(log: seq<Admission>, i: nat, j: nat, m: nat)
    requires WellCounted(log) && m > 0 && i + COLD_PER_SECOND * m <= j < |log|
    ensures log[j].at > log[i].at + (m - 1) * SECOND
  {
    var k := i + COLD_PER_SECOND * m;
    TenPerSecond(log, i, m);
    SameSecondOrLater(log, k, j);
    assert AdmissionOk(log[i]) && AdmissionOk(log[k]);
  }

  function Range(lo: nat, hi: nat): (r: set<nat>)
    requires lo <= hi
    ensures forall k :: k in r <==> lo <= k < hi
    ensures |r| == hi - lo
    decreases hi - lo
  {
    if lo == hi then {} else Range(lo + 1, hi) + {lo}
  }

  lemma {:induction false} SubsetSize(a: set<nat>, b: set<nat>)
    requires a <= b
    ensures |a| <= |b|
  {
    assert b == a + (b - a);
  }

  lemma {:induction false} Smallest(s: set<nat>) returns (least: nat)
    requires s != {}
    ensures least in s && forall k :: k in s ==> least <= k
    decreases s
  {
    var k :| k in s;
    if s == {k} {
      least := k;
    } else {
      least := Smallest(s - {k});
      assert forall j :: j in s ==> j == k || j in s - {k};
      if k < least {
        least := k;
      }
    }
  }

  lemma {:induction false} FewWithin(log: seq<Admission>, from: Instant, length: nat)
    requires WellCounted(log)
    ensures |Within(log, from, length)| <= COLD_PER_SECOND * (CeilSeconds(length) + 1)
  {
    var inside := Within(log, from, length);
    if inside != {} {
      var first := Smallest(inside);
      var bound := COLD_PER_SECOND * (CeilSeconds(length) + 1);
      forall k | k in inside ensures first <= k < first + bound {
        if k >= first + bound {
          FarApart(log, first, k, CeilSeconds(length) + 1);
        }
      }
      SubsetSize(inside, Range(first, first + bound));
    }
  }

  /**
   In every run, any interval of L seconds holds at most
   10 * (ceil(L) + 1) admitted cold fetches of one vendor host.
   */
  lemma {:induction false} ColdFetchesAreBounded(pieces: Pieces, cfg: Config, states: seq<State>,
                                                 actions: seq<Action>, host: string,
                                                 from: Instant, length: nat)
    requires Run(pieces, cfg, states, actions)
    ensures |Within(Admissions(pieces, states, actions, host, |actions|), from, length)|
         <= 10 * (CeilSeconds(length) + 1)
  {
    RunIsWellCounted(pieces, cfg, states, actions, host, |actions|);
    FewWithin(Admissions(pieces, states, actions, host, |actions|), from, length);
  }

  /** No request about a piece held nowhere goes out except as one of these admissions. */
  lemma {:induction false} ColdRequestsAreAdmitted(pieces: Pieces, cfg: Config, s: State, a: Action, key: Key)
    requires Enabled(pieces, s, a) && !At(s, key, Asking) && At(Step(pieces, cfg, s, a), key, Asking)
    requires IsCold(key, Step(pieces, cfg, s, a).ops[key])
    ensures Admits(pieces, s, a, HostOf(key.url)) && a.key == key
  {
    var t := Step(pieces, cfg, s, a);
    assert AsksAbout(s, t, key.url) by {
      assert At(t, Key(key.url, key.lane), Asking) && !At(s, Key(key.url, key.lane), Asking);
    }
    AskingSteps(pieces, cfg, s, a, key.url);
    assert Key(key.url, key.lane) == key;
    hide HostOf;
  }
}
