/**
 What one verdict gets from the store for a piece: the newest verified copy of
 those on hand (held, cached, attached) and, when that does not pass, of what
 the fallback loads.
 */
module Lookup {
  import opened Prelude
  import opened CollateralDates
  import opened StoreSteps

  datatype Candidate = Candidate(copy: Copy, from: Source)

  /** A piece handed to the verdict, with what is said about it. */
  datatype Found = Found(dates: Dates, copy: Copy, from: Source, used: CollateralUsed)

  datatype Loaded = Loaded(entry: Entry, from: Source)

  const OFFLINE := Unavailable(HttpError(None, None))

  predicate AllVerify(pieces: Pieces, id: Id, copies: seq<Candidate>) {
    forall i :: 0 <= i < |copies| ==> pieces.verify(id, copies[i].copy).Some?
  }

  function DatesOf(pieces: Pieces, id: Id, copies: seq<Candidate>): (ds: seq<Dates>)
    requires AllVerify(pieces, id, copies)
    ensures |ds| == |copies| && forall i :: 0 <= i < |copies| ==> pieces.verify(id, copies[i].copy) == Some(ds[i])
  {
    seq(|copies|, i requires 0 <= i < |copies| => pieces.verify(id, copies[i].copy).value)
  }

  /** The `k`-th is the newest, and the first among equally new ones. */
  predicate FirstNewest(ds: seq<Dates>, k: int) {
    && 0 <= k < |ds|
    && (forall j :: 0 <= j < |ds| ==> ds[k].NotOlderThan(ds[j]))
    && (forall j :: 0 <= j < k ==> !ds[j].NotOlderThan(ds[k]))
  }

  lemma {:induction false} FirstNewestIsUnique(ds: seq<Dates>, k: int, k': int)
    requires FirstNewest(ds, k) && FirstNewest(ds, k')
    ensures k == k'
  {
    assert ds[k].NotOlderThan(ds[k']) && ds[k'].NotOlderThan(ds[k]);
  }

  lemma {:induction false} NewestOfOneMore(ds: seq<Dates>, k: int, d: Dates)
    requires FirstNewest(ds, k)
    ensures FirstNewest(ds + [d], if ds[k].NotOlderThan(d) then k else |ds|)
  {}

  function Newest(ds: seq<Dates>): (k: nat)
    requires ds != []
    ensures FirstNewest(ds, k)
  {
    var n := |ds| - 1;
    if n == 0 then
      0
    else
      var k := Newest(ds[..n]);
      NewestOfOneMore(ds[..n], k, ds[n]);
      assert ds == ds[..n] + [ds[n]];
      if ds[k].NotOlderThan(ds[n]) then k else n
  }

  predicate Acceptable(d: Dates, floor: Option<U64>, now: I64) {
    Used(d, floor, now).Acceptable()
  }

  function Handed(d: Dates, c: Candidate, floor: Option<U64>, now: I64): Found {
    Found(d, c.copy, c.from, Used(d, floor, now))
  }

  /** The fallback is asked when nothing is on hand, or the newest copy on hand does not pass. */
  predicate Asks(pieces: Pieces, id: Id, floor: Option<U64>, now: I64, copies: seq<Candidate>) {
    AllVerify(pieces, id, copies) &&
    var ds := DatesOf(pieces, id, copies);
    ds == [] || !Acceptable(ds[Newest(ds)], floor, now)
  }

  function NewestCopy(ds: seq<Dates>, copies: seq<Candidate>): Option<(Dates, Candidate)>
    requires |ds| == |copies|
  {
    if ds == [] then None else Some((ds[Newest(ds)], copies[Newest(ds)]))
  }

  /** What the fallback's answer does to the best copy on hand; a failure only counts without one. */
  function Better(pieces: Pieces, id: Id, best: Option<(Dates, Candidate)>, loaded: Result<Loaded,
                  Failure>): Result<(Dates, Candidate), Failure> {
    match loaded
    case Err(e) => if best.None? then Err(e) else Ok(best.value)
    case Ok(l) =>
      if best.Some? && best.value.0.NotOlderThan(l.entry.dates) then
        Ok(best.value)
      else
        match pieces.verify(id, l.entry.copy)
        case None => Err(Refused)
        case Some(d) => Ok((d, Candidate(l.entry.copy, l.from)))
  }

  /** The answer when the fallback, if asked, says `loaded`. */
  function Answer(pieces: Pieces, id: Id, floor: Option<U64>, now: I64, copies: seq<Candidate>,
                  loaded: Result<Loaded, Failure>)
    : Result<Found, Failure>
  {
    if !AllVerify(pieces, id, copies) then
      Err(Refused)
    else
      var best := NewestCopy(DatesOf(pieces, id, copies), copies);
      match if Asks(pieces, id, floor, now, copies) then Better(pieces, id, best, loaded) else Ok(best.value)
      case Err(e) => Err(e)
      case Ok((d, c)) => Ok(Handed(d, c, floor, now))
  }

  // --------------------------------------------------------- the view of a verdict

  /** A URL is kept once, with the response first used for it. */
  function Kept(used: seq<(Url, Copy)>, url: Url, copy: Copy): seq<(Url, Copy)> {
    if exists i :: 0 <= i < |used| && used[i].0 == url then used else used + [(url, copy)]
  }

  function ByUrl(attachments: seq<(Url, Copy)>): map<Url, Copy> {
    if attachments == [] then map[]
    else
      var last := attachments[|attachments| - 1];
      ByUrl(attachments[..|attachments| - 1])[last.0 := last.1]
  }

  /** Of two attachments for one URL the later one counts. */
  lemma {:induction false} LastAttachmentCounts(attachments: seq<(Url, Copy)>, url: Url, copy: Copy)
    ensures url in ByUrl(attachments) && ByUrl(attachments)[url] == copy
       <==> exists i :: 0 <= i < |attachments| && attachments[i] == (url, copy)
              && forall j :: i < j < |attachments| ==> attachments[j].0 != url
  {
    if attachments != [] {
      var n := |attachments| - 1;
      LastAttachmentCounts(attachments[..n], url, copy);
      if attachments[n].0 == url && attachments[n].1 == copy {
        assert attachments[n] == (url, copy);
      }
    }
  }

  function Listed(missing: seq<Url>, url: Url): seq<Url> {
    if url in missing then missing else missing + [url]
  }

  /** The response kept for `url`. */
  function KeptFor(used: seq<(Url, Copy)>, url: Url): Option<Copy> {
    if used == [] then None else if used[0].0 == url then Some(used[0].1) else KeptFor(used[1..], url)
  }

  predicate OncePerUrl(used: seq<(Url, Copy)>) {
    forall i, j :: 0 <= i < j < |used| ==> used[i].0 != used[j].0
  }

  /** Keeping a response adds it for its URL when there is none yet, at the end, and changes no other. */
  lemma {:induction false} FirstResponseIsKept(used: seq<(Url, Copy)>, url: Url, copy: Copy, other: Url)
    ensures OncePerUrl(used) ==> OncePerUrl(Kept(used, url, copy))
    ensures used <= Kept(used, url, copy)
    ensures KeptFor(Kept(used, url, copy), other)
         == if KeptFor(used, other).None? && other == url then Some(copy) else KeptFor(used, other)
  {
    KeptForIsFirst(used, url);
    KeptForAppend(used, (url, copy), other);
  }

  lemma {:induction false} KeptForIsFirst(used: seq<(Url, Copy)>, url: Url)
    ensures KeptFor(used, url).Some? <==> exists i :: 0 <= i < |used| && used[i].0 == url
  {
    if used != [] {
      KeptForIsFirst(used[1..], url);
      if used[0].0 != url && exists i :: 0 <= i < |used| && used[i].0 == url {
        var i :| 0 <= i < |used| && used[i].0 == url;
        assert used[1..][i - 1].0 == url;
      }
    }
  }

  lemma {:induction false} KeptForAppend(used: seq<(Url, Copy)>, last: (Url, Copy), other: Url)
    ensures KeptFor(used + [last], other)
         == if KeptFor(used, other).None? && other == last.0 then Some(last.1) else KeptFor(used, other)
  {
    if used != [] {
      KeptForAppend(used[1..], last, other);
      assert (used + [last])[1..] == used[1..] + [last];
    }
  }

  predicate EachOnce(missing: seq<Url>) {
    forall i, j :: 0 <= i < j < |missing| ==> missing[i] != missing[j]
  }

  /** A missing URL is listed once, at the end, and none is taken off. */
  lemma {:induction false} MissingIsListedOnce(missing: seq<Url>, url: Url, other: Url)
    ensures EachOnce(missing) ==> EachOnce(Listed(missing, url))
    ensures missing <= Listed(missing, url)
    ensures other in Listed(missing, url) <==> other in missing || other == url
  {}

  /** A store for one verdict: what the caller holds, what the evidence attached, what was used. */
  class View {
    var held: map<Url, Copy>
    var attached: map<Url, Copy>
    /** Responses used, when the view records. */
    var used: Option<seq<(Url, Copy)>>
    /** URLs a store without memory or network was asked for and did not hold. */
    var missing: seq<Url>
    const native: bool

    constructor (held: map<Url, Copy>, attachments: seq<(Url, Copy)>, record: bool, native: bool)
      ensures this.held == held && this.native == native && missing == []
      ensures used == if record then Some([]) else None
      ensures attached == ByUrl(attachments)
    {
      this.held, this.native, this.missing := held, native, [];
      this.used := if record then Some([]) else None;
      this.attached := map[];
      new;
      for n := 0 to |attachments|
        invariant this.held == held && missing == [] && used == if record then Some([]) else None
        invariant attached == ByUrl(attachments[..n])
      {
        assert attachments[..n + 1][..n] == attachments[..n];
        attached := attached[attachments[n].0 := attachments[n].1];
      }
      assert attachments[..|attachments|] == attachments;
    }

    /** Keep a used response, each URL once. */
    method Record(url: Url, copy: Copy)
      modifies this`used
      ensures old(used).None? ==> used == None
      ensures old(used).Some? ==> used == Some(Kept(old(used).value, url, copy))
    {
      if used.Some? {
        var known := false;
        for i := 0 to |used.value|
          invariant known <==> exists j :: 0 <= j < i && used.value[j].0 == url
        {
          if used.value[i].0 == url {
            known := true;
          }
        }
        if !known {
          used := Some(used.value + [(url, copy)]);
        }
      }
    }

    /** The copies this view has without asking anyone, in the order ties go. */
    function OnHand(url: Url, cached: Option<Candidate>): (copies: seq<Candidate>)
      reads this
      ensures copies == [] <==> url !in held && url !in attached
      // A held copy comes first, an attached one last, the cached one between, and only beside an attached one.
      ensures url in held ==> copies[0] == Candidate(held[url], Held)
      ensures url in attached ==> copies[|copies| - 1] == Candidate(attached[url], Attached)
      ensures forall c :: c in copies ==>
        || (url in held && c == Candidate(held[url], Held))
        || (url in attached && (c == Candidate(attached[url], Attached) || (native && cached == Some(c))))
      ensures url in attached && native && cached.Some? ==> |copies| >= 2 && copies[|copies| - 2] == cached.value
      ensures |copies| == (if url in held then 1 else 0) + (if url !in attached then 0 else if native && cached.Some? then 2 else 1)
    {
      HeldCopies(held, url)
      + (if url in attached then
           (if native && cached.Some? then [cached.value] else []) + [Candidate(attached[url], Attached)]
         else [])
    }

    /** What the store behind the view answers; without one the URL is listed as missing. */
    method Load(url: Url, store: Result<Loaded, Failure>) returns (r: Result<Loaded, Failure>)
      modifies this`missing
      ensures r == if native then store else Err(OFFLINE)
      ensures missing == if native then old(missing) else Listed(old(missing), url)
    {
      if native {
        return store;
      }
      if url !in missing {
        missing := missing + [url];
      }
      r := Err(OFFLINE);
    }

    /** `cached` and `store` are what memory, disk and upstream would answer: anything at all. */
    method Lookup(pieces: Pieces, id: Id, floor: Option<U64>, now: I64, cached: Option<Candidate>,
                  store: Result<Loaded, Failure>)
      returns (r: Result<Found, Failure>, asked: bool)
      modifies this`used, this`missing
      ensures asked == Asks(pieces, id, floor, now, old(OnHand(pieces.url(id), cached)))
      ensures r == Answer(pieces, id, floor, now, old(OnHand(pieces.url(id), cached)), if native then store else Err(OFFLINE))
      ensures used == if r.Ok? && old(used).Some? then Some(Kept(old(used).value, pieces.url(id), r.value.copy)) else old(used)
      ensures missing == if native || !asked then old(missing) else Listed(old(missing), pieces.url(id))
    {
      var url := pieces.url(id);
      var copies := OnHand(url, cached);
      var best := NewestOnHand(pieces, id, copies);
      if best.Err? {
        return Err(Refused), false;
      }
      asked := best.value.None? || !Acceptable(best.value.value.0, floor, now);
      var chosen: Result<(Dates, Candidate), Failure>;
      if asked {
        var loaded := Load(url, store);
        chosen := Better(pieces, id, best.value, loaded);
      } else {
        chosen := Ok(best.value.value);
      }
      if chosen.Err? {
        return Err(chosen.error), asked;
      }
      Record(url, chosen.value.1.copy);
      r := Ok(Handed(chosen.value.0, chosen.value.1, floor, now));
    }
  }

  /** The newest copy and its dates; an error when one does not verify. */
  method NewestOnHand(pieces: Pieces, id: Id, copies: seq<Candidate>) returns (r: Result<Option<(Dates, Candidate)>,
                      Failure>)
    ensures r == if !AllVerify(pieces, id, copies) then Err(Refused) else Ok(NewestCopy(DatesOf(pieces, id, copies), copies))
  {
    var best: Option<(Dates, Candidate)> := None;
    ghost var k: nat := 0;
    ghost var ds: seq<Dates> := [];
    for i := 0 to |copies|
      invariant |ds| == i && forall j :: 0 <= j < i ==> pieces.verify(id, copies[j].copy) == Some(ds[j])
      invariant best.None? <==> i == 0
      invariant best.Some? ==> FirstNewest(ds, k) && best.value == (ds[k], copies[k])
    {
      var dates := pieces.verify(id, copies[i].copy);
      if dates.None? {
        return Err(Refused);
      }
      if i > 0 {
        NewestOfOneMore(ds, k, dates.value);
      }
      OrderIsTotal(dates.value, dates.value, dates.value);
      ds := ds + [dates.value];
      if best.None? || !best.value.0.NotOlderThan(dates.value) {
        best, k := Some((dates.value, copies[i])), i;
      }
    }
    assert ds == DatesOf(pieces, id, copies);
    if ds != [] {
      FirstNewestIsUnique(ds, k, Newest(ds));
    }
    r := Ok(best);
  }

  lemma {:induction false} LoadedIsLast(ds: seq<Dates>, d: Dates) returns (k: nat)
    ensures k == if ds == [] || !ds[Newest(ds)].NotOlderThan(d) then |ds| else Newest(ds)
    ensures FirstNewest(ds + [d], k)
  {
    OrderIsTotal(d, d, d);
    if ds == [] {
      k := 0;
    } else {
      NewestOfOneMore(ds, Newest(ds), d);
      k := if ds[Newest(ds)].NotOlderThan(d) then Newest(ds) else |ds|;
    }
  }

  // ---------------------------------------------------------- what follows from the rule

  /** A copy is dated alike for every id its URL is for. */
  predicate DatedAlike(pieces: Pieces, id: Id, loaded: Result<Loaded, Failure>) {
    loaded.Ok? ==> pieces.verify(id, loaded.value.entry.copy) in {None, Some(loaded.value.entry.dates)}
  }

  /** No older than what was loaded or is on hand, and ahead of every copy on hand that is as new. */
  predicate IsNewest(pieces: Pieces, id: Id, floor: Option<U64>, now: I64, copies: seq<Candidate>,
                     loaded: Result<Loaded, Failure>, found: Found)
    requires AllVerify(pieces, id, copies)
  {
    && (Asks(pieces, id, floor, now, copies) && loaded.Ok? ==> found.dates.NotOlderThan(loaded.value.entry.dates))
    && (forall i :: 0 <= i < |copies| ==> found.dates.NotOlderThan(pieces.verify(id, copies[i].copy).value))
    && (forall i :: 0 <= i < |copies| && pieces.verify(id, copies[i].copy).value.NotOlderThan(found.dates) ==>
          exists j :: 0 <= j <= i && copies[j] == Candidate(found.copy, found.from))
  }

  /** The dates of the copies on hand and, when the fallback was asked and answered, of what it loaded. */
  function Considered(pieces: Pieces, id: Id, floor: Option<U64>, now: I64, copies: seq<Candidate>,
                      loaded: Result<Loaded, Failure>): seq<Dates>
    requires AllVerify(pieces, id, copies)
  {
    var ds := DatesOf(pieces, id, copies);
    if Asks(pieces, id, floor, now, copies) && loaded.Ok? then ds + [loaded.value.entry.dates] else ds
  }

  /** The answer is the first newest of all that was considered, the loaded copy coming last. */
  lemma {:induction false} AnswerIsFirstNewest(pieces: Pieces, id: Id, floor: Option<U64>, now: I64, copies: seq<Candidate>,
                                               loaded: Result<Loaded, Failure>, found: Found) returns (k: nat)
    requires Answer(pieces, id, floor, now, copies, loaded) == Ok(found)
    ensures AllVerify(pieces, id, copies)
    ensures FirstNewest(Considered(pieces, id, floor, now, copies, loaded), k)
    ensures Candidate(found.copy, found.from) == if k < |copies| then copies[k] else Candidate(loaded.value.entry.copy, loaded.value.from)
  {
    var ds := DatesOf(pieces, id, copies);
    if Asks(pieces, id, floor, now, copies) && loaded.Ok? {
      k := LoadedIsLast(ds, loaded.value.entry.dates);
    } else {
      k := Newest(ds);
    }
  }

  /** Whatever the sources were, a returned piece verifies for the very id asked, and so does every copy on hand. */
  lemma {:induction false} AnswerVerifies(pieces: Pieces, id: Id, floor: Option<U64>, now: I64, copies: seq<Candidate>,
                                          loaded: Result<Loaded, Failure>, found: Found)
    requires Answer(pieces, id, floor, now, copies, loaded) == Ok(found)
    ensures pieces.verify(id, found.copy) == Some(found.dates) && ToldOf(found.used, found.dates, floor, now)
    ensures AllVerify(pieces, id, copies)
  {
    AcceptableMeans(found.dates, floor, now);
    if loaded.Ok? && AllVerify(pieces, id, copies) && !Asks(pieces, id, floor, now, copies) {
      assert DatesOf(pieces, id, copies) != [];
    }
  }

  /**
   A returned piece is no older than any copy on hand or the loaded one, and
   among equally new copies is the first: neither attached nor loaded copies push
   the verifier back. The loaded copy is compared by the dates it was loaded with,
   which are those of this id when a copy is dated alike for every id of its URL.
   */
  lemma {:induction false} AnswerIsNewest(pieces: Pieces, id: Id, floor: Option<U64>, now: I64, copies: seq<Candidate>,
                                          loaded: Result<Loaded, Failure>, found: Found)
    requires Answer(pieces, id, floor, now, copies, loaded) == Ok(found)
    ensures AllVerify(pieces, id, copies) && pieces.verify(id, found.copy) == Some(found.dates)
    ensures DatedAlike(pieces, id, loaded) ==> IsNewest(pieces, id, floor, now, copies, loaded, found)
  {}

  /** When there is no answer: a bad copy on hand, a bad loaded copy that is newer than all, or no copy at all. */
  lemma {:induction false} NoAnswerMeans(pieces: Pieces, id: Id, floor: Option<U64>, now: I64, copies: seq<Candidate>,
                                         loaded: Result<Loaded, Failure>)
    ensures Answer(pieces, id, floor, now, copies, loaded).Err?
       <==> || (exists i :: 0 <= i < |copies| && pieces.verify(id, copies[i].copy).None?)
            || (loaded.Err? && copies == [])
            || (Asks(pieces, id, floor, now, copies) && loaded.Ok? && pieces.verify(id, loaded.value.entry.copy).None?
                && forall i :: 0 <= i < |copies| ==>
                     !pieces.verify(id, copies[i].copy).value.NotOlderThan(loaded.value.entry.dates))
    // A copy that does not verify is refused; without any copy the failure is the fallback's.
    ensures var answer := Answer(pieces, id, floor, now, copies, loaded);
      answer.Err? ==> answer.error == if loaded.Err? && copies == [] then loaded.error else Refused
  {
    if AllVerify(pieces, id, copies) && loaded.Ok? {
      var ds := DatesOf(pieces, id, copies);
      var all := ds + [loaded.value.entry.dates];
      assert forall i :: 0 <= i < |ds| ==> all[i] == ds[i];
      var k := Newest(all);
      assert k < |ds| ==> all[k].NotOlderThan(all[|ds|]);
    }
  }

  // ---------------------------------------- when the fallback is asked although a copy passes

  predicate NonePasses(ds: seq<Dates>, floor: Option<U64>, now: I64) {
    forall j :: 0 <= j < |ds| ==> !Acceptable(ds[j], floor, now)
  }

  /**
   Only the newest copy on hand is judged. So "the fallback is asked exactly when
   no copy passes" fails exactly when some copy passes while the newest lies
   outside its window with grace. Floors never make the difference.
   */
  lemma {:induction false} AskedExactlyWhenNonePasses(ds: seq<Dates>, k: nat, floor: Option<U64>, now: I64)
    requires FirstNewest(ds, k)
    ensures !(!Acceptable(ds[k], floor, now) <==> NonePasses(ds, floor, now))
       <==> !Passes(ds[k], now) && exists j :: 0 <= j < |ds| && Acceptable(ds[j], floor, now)
    // Enough for it: the newest copy has started and ends last.
    ensures (ds[k].thisUpdate.Some? ==> ds[k].thisUpdate.value <= now)
      && (forall j :: 0 <= j < |ds| && ds[k].nextUpdate.Some? ==>
            ds[j].nextUpdate.Some? && ds[j].nextUpdate.value <= ds[k].nextUpdate.value)
      ==> (!Acceptable(ds[k], floor, now) <==> NonePasses(ds, floor, now))
  {
    forall j | 0 <= j < |ds|
      ensures Acceptable(ds[j], floor, now) <==> Passes(ds[j], now) && MeetsFloor(ds[j], floor)
      ensures MeetsFloor(ds[j], floor) ==> MeetsFloor(ds[k], floor)
    {
      AcceptableMeans(ds[j], floor, now);
      if MeetsFloor(ds[j], floor) {
        NewerMeetsFloor(ds[k], ds[j], floor);
      }
    }
  }

  const CURRENT_ISSUE := Dates(Some(0), Some(100), Some(1))
  const COMING_ISSUE := Dates(Some(60), Some(200), Some(2))

  /**
   An input on which it fails: at time 50 the held copy passes, but the
   attached next issue, which starts at 60, is newer. The fallback is asked,
   and when it fails the copy that does not pass is the answer.
   */
  lemma {:induction false} AskedThoughACopyPasses(pieces: Pieces, id: Id, passing: Copy, coming: Copy, failure: Failure)
    requires pieces.verify(id, passing) == Some(CURRENT_ISSUE) && pieces.verify(id, coming) == Some(COMING_ISSUE)
    ensures Acceptable(CURRENT_ISSUE, None, 50)
    ensures var copies := [Candidate(passing, Held), Candidate(coming, Attached)];
      && Asks(pieces, id, None, 50, copies)
      && Answer(pieces, id, None, 50, copies, Err(failure)) == Ok(Handed(COMING_ISSUE, copies[1], None, 50))
      && !Handed(COMING_ISSUE, copies[1], None, 50).used.Acceptable()
  {
    var copies := [Candidate(passing, Held), Candidate(coming, Attached)];
    var ds := DatesOf(pieces, id, copies);
    assert ds == [CURRENT_ISSUE, COMING_ISSUE];
    assert FirstNewest(ds, 1);
    FirstNewestIsUnique(ds, Newest(ds), 1);
  }

  // ------------------------------------------------------------------ serving by URL

  datatype Served =
    | Piece(url: Url, copy: Copy, from: Source)
    | ServedNotPublished
    | ServedUnavailable(retryAfter: Option<nat>)
    | ServedRefused

  /** A failure as a cache's client sees it: a 404 or 410 of anyone reads as not published. */
  function Classified(failure: Failure): Served {
    match failure
    case NotPublished(_) => ServedNotPublished
    case Unavailable(e) => if e.NotFound() then ServedNotPublished else ServedUnavailable(e.retryAfter)
    case Refused => ServedRefused
  }

  /** What a cache serves when the lookup answers `answer`. */
  function ServedAs(url: Url, answer: Result<Found, Failure>): Served {
    match answer
    case Ok(found) => Piece(url, found.copy, found.from)
    case Err(e) => Classified(e)
  }

  /**
   What a cache's client is told. "Not published": nothing is held and the upstream
   said so, the vendor's word or a 404 or 410 of anyone. "Unavailable": nothing is
   held and the upstream failed otherwise, with its Retry-After. "Refused": a copy
   does not verify.
   */
  lemma {:induction false} ServedMeans(pieces: Pieces, id: Id, floor: Option<U64>, now: I64, held: map<Url, Copy>,
                                       loaded: Result<Loaded, Failure>)
    ensures var url := pieces.url(id);
      var served := ServedAs(url, Answer(pieces, id, floor, now, HeldCopies(held, url), loaded));
      && (served.ServedNotPublished? <==>
            && url !in held && loaded.Err?
            && (loaded.error.NotPublished? || (loaded.error.Unavailable? && loaded.error.error.status in {Some(404), Some(410)})))
      && (served.ServedUnavailable? <==>
            url !in held && loaded.Err? && loaded.error.Unavailable? && loaded.error.error.status !in {Some(404), Some(410)})
      && (served.ServedUnavailable? ==> served.retryAfter == loaded.error.error.retryAfter)
      && (served.ServedRefused? ==> url in held || loaded.Ok? || loaded.error.Refused?)
      && (served.Piece? ==> served.url == url && pieces.verify(id, served.copy).Some?)
  {
    var url := pieces.url(id);
    var answer := Answer(pieces, id, floor, now, HeldCopies(held, url), loaded);
    if answer.Ok? {
      AnswerVerifies(pieces, id, floor, now, HeldCopies(held, url), loaded, answer.value);
    } else {
      NoAnswerMeans(pieces, id, floor, now, HeldCopies(held, url), loaded);
    }
  }

  function HeldCopies(held: map<Url, Copy>, url: Url): seq<Candidate> {
    if url in held then [Candidate(held[url], Held)] else []
  }

  /** A recording view without attachments: what a cache serves is the copy that was verified. */
  method ServeRaw(held: map<Url, Copy>, pieces: Pieces, id: Id, floor: Option<U64>, now: I64, native: bool,
                  store: Result<Loaded, Failure>)
    returns (served: Served)
    // The exit for a lookup that kept no response is not among the answers.
    ensures served == ServedAs(pieces.url(id),
      Answer(pieces, id, floor, now, HeldCopies(held, pieces.url(id)), if native then store else Err(OFFLINE)))
  {
    var view := new View(held, [], true, native);
    assert view.OnHand(pieces.url(id), None) == HeldCopies(held, pieces.url(id));
    var r, asked := view.Lookup(pieces, id, floor, now, None, store);
    if r.Err? {
      return Classified(r.error);
    }
    var used := view.used.value;
    if used == [] {
      return ServedRefused;
    }
    served := Piece(used[|used| - 1].0, used[|used| - 1].1, r.value.from);
  }
}
