/**
 The native store as the object the code keeps: maps that its methods update in
 place. Each method is one step of the state machine, and the calls made so far
 are a run of it, so what holds in every run holds of this object under any
 schedule.
 */
module NativeStore {
  import opened Prelude
  import opened CollateralDates
  import opened StoreSafety
  import opened StoreSteps

  class Native {
    const pieces: Pieces
    const cfg: Config
    var clock: Instant
    var mem: map<Url, Entry>
    var failed: map<Url, (Instant, Failure)>
    var hosts: map<string, Host>
    /** The operations under way: what each caller's stack holds between two steps. */
    var ops: map<Key, Op>
    /** The calls made so far, and the states they went through. */
    ghost var actions: seq<Action>
    ghost var states: seq<State>

    ghost predicate Valid()
      reads this
    {
      Run(pieces, cfg, states, actions) && states[|actions|] == View()
    }

    function View(): State
      reads this
    {
      State(clock, mem, failed, hosts, ops)
    }

    constructor (pieces: Pieces, cfg: Config)
      ensures this.pieces == pieces && this.cfg == cfg && View() == INITIAL
      ensures Valid() && actions == []
    {
      this.pieces, this.cfg := pieces, cfg;
      clock, mem, failed, hosts, ops := 0, map[], map[], map[], map[];
      actions, states := [], [INITIAL];
    }

    /** Notes the call that begins, and the state it is to end in. */
    ghost method Begin(a: Action)
      requires Valid() && Enabled(pieces, View(), a)
      modifies this`actions, this`states
      ensures actions == old(actions) + [a] && Run(pieces, cfg, states, actions)
      ensures states[|actions|] == Step(pieces, cfg, View(), a)
    {
      RunGoesOn(pieces, cfg, states, actions, a);
      actions, states := actions + [a], states + [Step(pieces, cfg, View(), a)];
    }

    /** The clock moves on. */
    method Tick(elapsed: nat)
      requires Valid()
      modifies this`clock, this`actions, this`states
      ensures Valid() && actions == old(actions) + [Action.Tick(elapsed)]
      ensures View() == old(View()).(clock := old(clock) + elapsed)
    {
      Begin(Action.Tick(elapsed));
      clock := clock + elapsed;
    }

    /** The future of a load or refresh is dropped, wherever it stands. */
    method Drop(key: Key)
      requires Valid() && key in ops
      modifies this`ops, this`actions, this`states
      ensures Valid() && actions == old(actions) + [Cancel(key)]
      ensures View() == CancelStep(old(View()), key)
    {
      Begin(Cancel(key));
      ops := ops - {key};
    }

    method MoveTo(key: Key, stage: Stage)
      requires key in ops
      modifies this`ops
      ensures View() == Moved(old(View()), key, stage)
    {
      ops := ops[key := ops[key].(stage := stage)];
    }

    /** A miss, up to the point where the upstream may have to be asked. */
    method StartLoad(id: Id, now: I64, disk: Option<Copy>, random: U64)
      requires Valid() && Enabled(pieces, View(), Action.StartLoad(id, now, disk, random))
      modifies this`ops, this`actions, this`states
      ensures Valid() && actions == old(actions) + [Action.StartLoad(id, now, disk, random)]
      ensures View() == Step(pieces, cfg, old(View()), Action.StartLoad(id, now, disk, random))
    {
      hide Run, RefreshAt;
      Begin(Action.StartLoad(id, now, disk, random));
      var onDisk := None;
      if disk.Some? {
        onDisk := Check(pieces, id, disk.value, Disk, random, clock);
      }
      var stage := AtFailed;
      if onDisk.Some? && onDisk.value.dates.Current(now) {
        stage := Done(Ok(onDisk.value));
      }
      ops := ops[Key(pieces.url(id), Load) := Op(id, onDisk, stage)];
    }

    /** Whether the entry is due is looked at again under the URL's lock. */
    method StartRefresh(id: Id, now: I64, force: bool)
      requires Valid() && Enabled(pieces, View(), Action.StartRefresh(id, now, force))
      modifies this`ops, this`actions, this`states
      ensures Valid() && actions == old(actions) + [Action.StartRefresh(id, now, force)]
      ensures View() == Step(pieces, cfg, old(View()), Action.StartRefresh(id, now, force))
      // A refresh begins when the last look is `recheck` ago and it is forced or time: from the drawn moment, or hourly.
      ensures var e := old(mem)[pieces.url(id)];
        Key(pieces.url(id), Refresh) in ops <==>
          && clock >= e.checkedAt + cfg.recheck
          && (force || (e.dates.nextUpdate.Some? && now >= e.refreshAt)
              || (e.dates.nextUpdate.None? && clock >= e.checkedAt + MAX_AGE))
    {
      hide Run, RefreshAt;
      Begin(Action.StartRefresh(id, now, force));
      var url := pieces.url(id);
      var current := mem[url];
      if Due(cfg, current, clock, now, force) {
        ops := ops[Key(url, Refresh) := Op(id, Some(current), AtFailed)];
      }
    }

    method CheckFailed(key: Key)
      requires Valid() && At(View(), key, AtFailed)
      modifies this`ops, this`actions, this`states
      ensures Valid() && actions == old(actions) + [Action.CheckFailed(key)]
      ensures View() == CheckFailedStep(cfg, old(View()), key)
      // A recorded "not published" is answered for `recheck`.
      ensures cfg.online && key.url in failed && failed[key.url].1.NotPublished? ==>
        (ops[key].stage == Done(Err(failed[key.url].1)) <==> clock < failed[key.url].0 + cfg.recheck)
    {
      hide Run, RefreshAt, UpToDelimiter, AfterReply;
      Begin(Action.CheckFailed(key));
      if !cfg.online {
        MoveTo(key, Done(Err(Unavailable(HttpError(None, None)))));
        return;
      }
      if key.url in failed {
        var (at, failure) := failed[key.url];
        if clock < at + StandsFor(cfg, failure) {
          MoveTo(key, Done(Err(failure)));
          return;
        }
      }
      MoveTo(key, AtPause);
    }

    method CheckPause(key: Key)
      requires Valid() && At(View(), key, AtPause)
      modifies this`ops, this`actions, this`states
      ensures Valid() && actions == old(actions) + [Action.CheckPause(key)]
      ensures View() == CheckPauseStep(old(View()), key)
    {
      hide Run, RefreshAt, UpToDelimiter, AfterReply;
      Begin(Action.CheckPause(key));
      var host := HostOf(key.url);
      if host in hosts && hosts[host].pausedUntil.Some? && clock <= hosts[host].pausedUntil.value {
        MoveTo(key, Done(Err(Wait((hosts[host].pausedUntil.value - clock) / SECOND))));
      } else if IsCold(key, ops[key]) {
        MoveTo(key, AtAdmit);
      } else {
        MoveTo(key, Asking);
      }
    }

    /** Counts a fetch of a piece held nowhere against its host's second. */
    method AdmitCold(key: Key)
      requires Valid() && At(View(), key, AtAdmit)
      modifies this`ops, this`hosts, this`actions, this`states
      ensures Valid() && actions == old(actions) + [Admit(key)]
      ensures View() == AdmitStep(old(View()), key)
    {
      hide Run, RefreshAt, UpToDelimiter, AfterReply;
      Begin(Admit(key));
      var host := HostOf(key.url);
      var h := if host in hosts then hosts[host] else NEW_HOST;
      if h.second.None? || clock - h.second.value >= SECOND {
        h := h.(second := Some(clock));
        h := h.(cold := 0);
      }
      if h.cold >= COLD_PER_SECOND {
        hosts := hosts[host := h];
        MoveTo(key, Done(Err(Wait(1))));
        return;
      }
      h := h.(cold := h.cold + 1);
      hosts := hosts[host := h];
      MoveTo(key, Asking);
    }

    method HandleReply(key: Key, direct: bool, answer: Result<Copy, HttpError>, random: U64)
      requires Valid() && At(View(), key, Asking)
      modifies this`ops, this`hosts, this`actions, this`states
      ensures Valid() && actions == old(actions) + [Reply(key, direct, answer, random)]
      ensures View() == ReplyStep(pieces, cfg, old(View()), key, direct, answer, random)
    {
      hide Run, RefreshAt, AfterReply, UpToDelimiter, StandsFor;
      Begin(Reply(key, direct, answer, random));
      var fetched := answer;
      if fetched.Err? && direct && (fetched.error.status == Some(429) || fetched.error.status == Some(503)) {
        var host, pause := HostOf(key.url), PauseOf(cfg, fetched.error);
        var h := if host in hosts then hosts[host] else NEW_HOST;
        hosts := hosts[host := h.(pausedUntil := Some(clock + pause))];
        if fetched.error.retryAfter.None? {
          fetched := Err(fetched.error.(retryAfter := Some(Max(pause / SECOND, 1))));
        }
      }
      MoveTo(key, AfterReply(pieces, ops[key].id, direct, fetched, random, clock));
    }

    method RecordFailure(key: Key)
      requires Valid() && key in ops && ops[key].stage.Recording?
      modifies this`ops, this`failed, this`actions, this`states
      ensures Valid() && actions == old(actions) + [Record(key)]
      ensures View() == RecordStep(old(View()), key)
    {
      hide Run, RefreshAt, UpToDelimiter, AfterReply;
      Begin(Record(key));
      var failure := ops[key].stage.failure;
      failed := failed[key.url := (clock, failure)];
      MoveTo(key, Done(Err(failure)));
    }

    /** The end of a load or refresh: what memory holds of the URL from now on. */
    method Complete(key: Key)
      requires Valid() && key in ops && ops[key].stage.Done?
      modifies this`ops, this`mem, this`actions, this`states
      ensures Valid() && actions == old(actions) + [Finish(key)]
      ensures View() == FinishStep(old(View()), key)
    {
      hide Run, RefreshAt, UpToDelimiter, AfterReply;
      Begin(Finish(key));
      var op := ops[key];
      var fetched := op.stage.outcome;
      ops := ops - {key};
      if fetched.Ok? && (op.kept.None? || fetched.value.dates.NotOlderThan(op.kept.value.dates)) {
        mem := mem[key.url := fetched.value];
      } else if op.kept.Some? {
        var kept := op.kept.value;
        if key.lane.Refresh? {
          kept := kept.(checkedAt := clock);
        }
        mem := mem[key.url := kept];
      }
    }
  }

  /** However the calls were interleaved: memory holds verified copies, and the invariant of the store holds. */
  lemma {:induction false} ObjectIsSafe(store: Native, url: Url)
    requires store.Valid()
    ensures Inv(store.pieces, store.cfg, store.View())
    ensures url in store.mem ==> VerifiedAt(store.pieces, url, store.mem[url])
  {
    RunKeepsInv(store.pieces, store.cfg, store.states, store.actions, |store.actions|);
  }

  /** Nor does any entry the object ever held go back. */
  lemma {:induction false} ObjectNeverGoesBack(store: Native, i: nat, url: Url)
    requires store.Valid() && i < |store.states| && url in store.states[i].mem
    ensures url in store.mem && store.mem[url].dates.NotOlderThan(store.states[i].mem[url].dates)
  {
    MemoryNeverGoesBack(store.pieces, store.cfg, store.states, store.actions, i, |store.actions|, url);
  }
}
