/**
 The evidence envelope's attached collateral: vendor responses sorted by
 issuer chain and URL, each chain written only where it changes. A reader
 gives a piece without a chain the chain of the nearest piece before it that
 has one, which is right only because of the sort.

 Text is UTF-8 bytes, compared byte by byte. Removing roots from a chain is a
 parameter.
 */
module Envelope {
  import opened Prelude

  type Chain = Option<Bytes>
  type Strip = Bytes -> Bytes

  datatype Response = Response(url: Bytes, body: Bytes, chain: Chain)

  datatype Attached = Attached(url: Bytes, body: Bytes, issuerChain: Chain)

  // ------------------------------------------------------------------ the order

  predicate Le(a: Bytes, b: Bytes) {
    a == [] || (b != [] && (a[0] < b[0] || (a[0] == b[0] && Le(a[1..], b[1..]))))
  }

  /** They differ first at `k`, or there `a` ends. */
  predicate SameUpTo(a: Bytes, b: Bytes, k: int) {
    0 <= k <= |a| && k <= |b| && a[..k] == b[..k]
  }

  /** Byte order: `a` is a prefix of `b`, or has the smaller byte where they first differ. */
  lemma {:induction false} LeMeans(a: Bytes, b: Bytes)
    ensures Le(a, b) <==> a <= b || exists k :: SameUpTo(a, b, k) && k < |a| && k < |b| && a[k] < b[k]
  {
    if a != [] && b != [] && a[0] == b[0] {
      LeMeans(a[1..], b[1..]);
      assert a == [a[0]] + a[1..] && b == [b[0]] + b[1..];
      if k :| SameUpTo(a[1..], b[1..], k) && k < |a[1..]| && k < |b[1..]| && a[1..][k] < b[1..][k] {
        assert a[..k + 1] == [a[0]] + a[1..][..k] && b[..k + 1] == [b[0]] + b[1..][..k];
        assert SameUpTo(a, b, k + 1);
      }
      if k :| SameUpTo(a, b, k) && k < |a| && k < |b| && a[k] < b[k] {
        assert a[1..][..k - 1] == a[..k][1..] && b[1..][..k - 1] == b[..k][1..];
        assert SameUpTo(a[1..], b[1..], k - 1);
      }
    } else if a != [] && b != [] && a[0] < b[0] {
      assert SameUpTo(a, b, 0);
    }
  }

  lemma {:induction false} LeIsTotal(a: Bytes, b: Bytes)
    ensures Le(a, b) || Le(b, a)
    ensures Le(a, b) && Le(b, a) <==> a == b
  {
    if a != [] && b != [] && a[0] == b[0] {
      LeIsTotal(a[1..], b[1..]);
      assert a == [a[0]] + a[1..] && b == [b[0]] + b[1..];
    }
    if a == b && a != [] {
      LeIsTotal(a[1..], b[1..]);
    }
  }

  lemma {:induction false} LeChains(a: Bytes, b: Bytes, c: Bytes)
    requires Le(a, b) && Le(b, c)
    ensures Le(a, c)
  {
    if a != [] && a[0] == b[0] == c[0] {
      LeChains(a[1..], b[1..], c[1..]);
    }
  }

  /** No chain sorts before any chain. */
  predicate ChainLe(a: Chain, b: Chain) {
    a.None? || (b.Some? && Le(a.value, b.value))
  }

  lemma {:induction false} ChainOrder(a: Chain, b: Chain, c: Chain)
    ensures ChainLe(a, b) || ChainLe(b, a)
    ensures ChainLe(a, b) && ChainLe(b, a) <==> a == b
    ensures ChainLe(a, b) && ChainLe(b, c) ==> ChainLe(a, c)
  {
    if a.Some? && b.Some? {
      LeIsTotal(a.value, b.value);
      if c.Some? && Le(a.value, b.value) && Le(b.value, c.value) {
        LeChains(a.value, b.value, c.value);
      }
    }
  }

  /** By chain, then by URL; the body does not count. */
  predicate KeyLe(x: Response, y: Response) {
    if x.chain == y.chain then Le(x.url, y.url) else ChainLe(x.chain, y.chain)
  }

  predicate SameKey(x: Response, y: Response) {
    x.chain == y.chain && x.url == y.url
  }

  lemma {:induction false} KeyOrder(x: Response, y: Response, z: Response)
    ensures KeyLe(x, y) || KeyLe(y, x)
    ensures KeyLe(x, y) && KeyLe(y, x) <==> SameKey(x, y)
    ensures KeyLe(x, y) && KeyLe(y, z) ==> KeyLe(x, z)
  {
    ChainOrder(x.chain, y.chain, z.chain);
    ChainOrder(y.chain, z.chain, x.chain);
    LeIsTotal(x.url, y.url);
    if Le(x.url, y.url) && Le(y.url, z.url) {
      LeChains(x.url, y.url, z.url);
    }
  }

  // -------------------------------------------------------------- a stable sort

  predicate Sorted(s: seq<Response>) {
    forall i, j :: 0 <= i < j < |s| ==> KeyLe(s[i], s[j])
  }

  /** The responses of one key, in the order they stand. */
  function OfKey(s: seq<Response>, key: Response): (r: seq<Response>)
    ensures forall x :: x in r <==> x in s && SameKey(x, key)
  {
    if s == [] then []
    else
      assert forall x :: x in s <==> x == s[0] || x in s[1..];
      (if SameKey(s[0], key) then [s[0]] else []) + OfKey(s[1..], key)
  }

  /** `s` is `rs` sorted, equal keys staying in order. */
  ghost predicate StableSort(rs: seq<Response>, s: seq<Response>) {
    Sorted(s) && forall key :: OfKey(s, key) == OfKey(rs, key)
  }

  function Insert(x: Response, s: seq<Response>): seq<Response> {
    if s == [] || KeyLe(x, s[0]) then [x] + s else [s[0]] + Insert(x, s[1..])
  }

  function Sort(rs: seq<Response>): seq<Response> {
    if rs == [] then [] else Insert(rs[0], Sort(rs[1..]))
  }

  lemma {:induction false} InsertKeepsAll(x: Response, s: seq<Response>)
    ensures multiset(Insert(x, s)) == multiset{x} + multiset(s)
  {
    if s != [] {
      InsertKeepsAll(x, s[1..]);
      assert s == [s[0]] + s[1..];
    }
  }

  lemma {:induction false} ConsSorted(x: Response, s: seq<Response>)
    requires Sorted(s) && forall y :: y in s ==> KeyLe(x, y)
    ensures Sorted([x] + s)
  {}

  lemma {:induction false} InsertSorts(x: Response, s: seq<Response>)
    requires Sorted(s)
    ensures Sorted(Insert(x, s))
  {
    if s == [] {
    } else if KeyLe(x, s[0]) {
      forall y | y in s ensures KeyLe(x, y) {
        KeyOrder(x, s[0], y);
        KeyOrder(y, y, y);
      }
      ConsSorted(x, s);
    } else {
      InsertSorts(x, s[1..]);
      InsertKeepsAll(x, s[1..]);
      KeyOrder(x, s[0], x);
      forall y | y in Insert(x, s[1..]) ensures KeyLe(s[0], y) {
        assert y in multiset(Insert(x, s[1..]));
      }
      ConsSorted(s[0], Insert(x, s[1..]));
    }
  }

  lemma {:induction false} OfKeyCons(x: Response, s: seq<Response>, key: Response)
    ensures OfKey([x] + s, key) == (if SameKey(x, key) then [x] else []) + OfKey(s, key)
  {
    assert ([x] + s)[1..] == s;
  }

  lemma {:induction false} InsertIsStable(x: Response, s: seq<Response>, key: Response)
    ensures OfKey(Insert(x, s), key) == OfKey([x] + s, key)
  {
    hide OfKey, KeyLe;
    if s != [] && !KeyLe(x, s[0]) {
      InsertIsStable(x, s[1..], key);
      KeyOrder(x, s[0], x);
      OfKeyCons(s[0], Insert(x, s[1..]), key);
      OfKeyCons(x, s[1..], key);
      OfKeyCons(x, s, key);
      OfKeyCons(s[0], s[1..], key);
      assert [s[0]] + s[1..] == s;
    }
  }

  lemma {:induction false} SortIsStable(rs: seq<Response>)
    ensures StableSort(rs, Sort(rs))
    ensures multiset(Sort(rs)) == multiset(rs)
  {
    if rs != [] {
      SortIsStable(rs[1..]);
      var tail := Sort(rs[1..]);
      InsertSorts(rs[0], tail);
      InsertKeepsAll(rs[0], tail);
      assert rs == [rs[0]] + rs[1..];
      forall key ensures OfKey(Sort(rs), key) == OfKey(rs, key) {
        InsertIsStable(rs[0], tail, key);
        assert ([rs[0]] + tail)[1..] == tail;
      }
    }
  }

  lemma {:induction false} SameHead(a: seq<Response>, b: seq<Response>)
    requires Sorted(a) && Sorted(b) && a != []
    requires forall key :: OfKey(a, key) == OfKey(b, key)
    ensures b != [] && a[0] == b[0]
  {
    hide KeyLe;
    KeyOrder(a[0], a[0], a[0]);
    assert a[0] in OfKey(a, a[0]) && a[0] in b;
    assert b[0] in OfKey(b, b[0]) && b[0] in a;
    KeyOrder(a[0], b[0], a[0]);
    assert OfKey(a, a[0])[0] == a[0] && OfKey(b, a[0])[0] == b[0];
  }

  /** Sorting leaves no choice: every stable sort by this key gives this list. */
  lemma {:induction false} StableSortIsUnique(a: seq<Response>, b: seq<Response>)
    requires Sorted(a) && Sorted(b) && forall key :: OfKey(a, key) == OfKey(b, key)
    ensures a == b
  {
    if a == [] {
      if b != [] {
        SameHead(b, a);
      }
    } else {
      SameHead(a, b);
      forall key ensures OfKey(a[1..], key) == OfKey(b[1..], key) {
        var head := if SameKey(a[0], key) then [a[0]] else [];
        assert OfKey(a, key) == head + OfKey(a[1..], key) && OfKey(b, key) == head + OfKey(b[1..], key);
        assert OfKey(a[1..], key) == (head + OfKey(a[1..], key))[|head|..];
      }
      StableSortIsUnique(a[1..], b[1..]);
    }
  }

  // ------------------------------------------------------- chains by difference

  /** Each chain only where it differs from the one before; `previous` starts the comparison. */
  function Delta(previous: Chain, rs: seq<Response>): (out: seq<Attached>)
    ensures |out| == |rs|
    decreases |rs|
  {
    if rs == [] then []
    else
      var r := rs[0];
      if r.chain.Some? && r.chain != previous
      then [Attached(r.url, r.body, r.chain)] + Delta(r.chain, rs[1..])
      else [Attached(r.url, r.body, None)] + Delta(previous, rs[1..])
  }

  /** Each piece with the nearest chain at or before it; `chain` stands before the first. */
  function Held(chain: Chain, pieces: seq<Attached>): (out: seq<Response>)
    ensures |out| == |pieces|
    decreases |pieces|
  {
    if pieces == [] then []
    else
      var now := if pieces[0].issuerChain.Some? then pieces[0].issuerChain else chain;
      [Response(pieces[0].url, pieces[0].body, now)] + Held(now, pieces[1..])
  }

  /** No piece without a chain stands behind one with a chain. */
  predicate BareFirst(previous: Chain, rs: seq<Response>) {
    forall i :: 0 <= i < |rs| && rs[i].chain.None? ==> previous.None? && forall j :: 0 <= j < i ==> rs[j].chain.None?
  }

  lemma {:induction false} BareFirstStep(previous: Chain, rs: seq<Response>)
    requires rs != []
    ensures var now := if rs[0].chain.Some? then rs[0].chain else previous;
      BareFirst(previous, rs) <==> (rs[0].chain.None? ==> previous.None?) && BareFirst(now, rs[1..])
  {}

  /** Reading back what was written gives the same list exactly when pieces without a chain come first. */
  lemma {:induction false} DeltaRoundTrip(previous: Chain, rs: seq<Response>)
    ensures Held(previous, Delta(previous, rs)) == rs <==> BareFirst(previous, rs)
    decreases |rs|
  {
    if rs != [] {
      var now := if rs[0].chain.Some? then rs[0].chain else previous;
      BareFirstStep(previous, rs);
      DeltaRoundTrip(now, rs[1..]);
      var out := Delta(previous, rs);
      assert out[1..] == Delta(now, rs[1..]);
      var back := Held(previous, out);
      assert back[0] == Response(rs[0].url, rs[0].body, now) && back[1..] == Held(now, Delta(now, rs[1..]));
      assert back == rs <==> back[0] == rs[0] && back[1..] == rs[1..];
    }
  }

  lemma {:induction false} SortedIsBareFirst(rs: seq<Response>)
    requires Sorted(rs)
    ensures BareFirst(None, rs)
  {}

  // ------------------------------------------------------------ written once

  predicate Before(a: Chain, b: Chain) {
    ChainLe(a, b) && a != b
  }

  /** Every written chain comes behind `floor` and behind the ones written before it. */
  predicate Ascending(floor: Chain, out: seq<Attached>) {
    && (forall i :: 0 <= i < |out| && out[i].issuerChain.Some? ==> Before(floor, out[i].issuerChain))
    && (forall i, j :: 0 <= i < j < |out| && out[i].issuerChain.Some? && out[j].issuerChain.Some? ==>
          Before(out[i].issuerChain, out[j].issuerChain))
  }

  lemma {:induction false} TailSorted(rs: seq<Response>)
    requires Sorted(rs) && rs != []
    ensures Sorted(rs[1..]) && forall i :: 0 <= i < |rs| ==> ChainLe(rs[0].chain, rs[i].chain)
  {
    forall i | 0 <= i < |rs| ensures ChainLe(rs[0].chain, rs[i].chain) {
      ChainOrder(rs[0].chain, rs[i].chain, rs[i].chain);
      assert i > 0 ==> KeyLe(rs[0], rs[i]);
    }
  }

  lemma {:induction false} WrittenAscending(previous: Chain, rs: seq<Response>)
    requires Sorted(rs) && forall i :: 0 <= i < |rs| ==> ChainLe(previous, rs[i].chain)
    ensures Ascending(previous, Delta(previous, rs))
    decreases |rs|
  {
    if rs != [] {
      TailSorted(rs);
      var out := Delta(previous, rs);
      if out[0].issuerChain.Some? {
        WrittenAscending(rs[0].chain, rs[1..]);
        assert out[1..] == Delta(rs[0].chain, rs[1..]);
        forall i | 0 < i < |out| && out[i].issuerChain.Some?
          ensures Before(rs[0].chain, out[i].issuerChain) && Before(previous, out[i].issuerChain)
        {
          assert out[i] == out[1..][i - 1];
          ChainOrder(previous, rs[0].chain, out[i].issuerChain);
          ChainOrder(out[i].issuerChain, previous, rs[0].chain);
        }
        AscendingCons(previous, out);
      } else {
        WrittenAscending(previous, rs[1..]);
        assert out[1..] == Delta(previous, rs[1..]);
        forall i | 0 < i < |out| ensures out[i] == out[1..][i - 1] {}
        AscendingCons(previous, out);
      }
    }
  }

  lemma {:induction false} AscendingCons(previous: Chain, out: seq<Attached>)
    requires out != []
    requires forall i :: 0 <= i < |out| && out[i].issuerChain.Some? ==> Before(previous, out[i].issuerChain)
    requires forall i :: 0 < i < |out| && out[0].issuerChain.Some? && out[i].issuerChain.Some? ==>
      Before(out[0].issuerChain, out[i].issuerChain)
    requires exists floor :: Ascending(floor, out[1..])
    ensures Ascending(previous, out)
  {}

  lemma {:induction false} EachChainIsWritten(previous: Chain, rs: seq<Response>, i: nat)
    requires i < |rs| && rs[i].chain.Some? && rs[i].chain != previous
    ensures exists k :: 0 <= k <= i && Delta(previous, rs)[k].issuerChain == rs[i].chain
    decreases |rs|
  {
    var out := Delta(previous, rs);
    var now := if rs[0].chain.Some? then rs[0].chain else previous;
    assert out[1..] == Delta(now, rs[1..]);
    if rs[i].chain == now {
      assert out[0].issuerChain == rs[i].chain;
    } else {
      EachChainIsWritten(now, rs[1..], i - 1);
      var k :| 0 <= k <= i - 1 && Delta(now, rs[1..])[k].issuerChain == rs[i].chain;
      assert out[k + 1] == out[1..][k];
    }
  }

  // ----------------------------------------------------------------- attaching

  function Stripped(strip: Strip, rs: seq<Response>): (out: seq<Response>)
    ensures |out| == |rs|
    ensures forall i :: 0 <= i < |rs| ==> out[i] == rs[i].(chain := if rs[i].chain.Some? then Some(strip(rs[i].chain.value)) else None)
  {
    seq(|rs|, i requires 0 <= i < |rs| => rs[i].(chain := if rs[i].chain.Some? then Some(strip(rs[i].chain.value)) else None))
  }

  /** The list `attach` leaves in the envelope. */
  function Written(strip: Strip, rs: seq<Response>): seq<Attached> {
    Delta(None, Sort(Stripped(strip, rs)))
  }

  lemma {:induction false} DeltaStep(written: seq<Attached>, previous: Chain, rs: seq<Response>, i: nat)
    requires i < |rs|
    ensures var r := rs[i];
      written + Delta(previous, rs[i..]) ==
        if r.chain.Some? && r.chain != previous
        then written + [Attached(r.url, r.body, r.chain)] + Delta(r.chain, rs[i + 1..])
        else written + [Attached(r.url, r.body, None)] + Delta(previous, rs[i + 1..])
  {}

  class Evidence {
    var collateral: seq<Attached>

    /** Replaces whatever was attached. */
    method Attach(strip: Strip, responses: seq<Response>)
      modifies this
      ensures collateral == Written(strip, responses)
    {
      hide Delta;
      var stripped := Stripped(strip, responses);
      var sorted := Sort(stripped);
      var previous: Chain := None;
      var written: seq<Attached> := [];
      assert sorted[0..] == sorted;
      for i := 0 to |sorted|
        invariant written + Delta(previous, sorted[i..]) == Delta(None, sorted)
      {
        DeltaStep(written, previous, sorted, i);
        var r := sorted[i];
        var issuerChain: Chain := None;
        if r.chain.Some? && r.chain != previous {
          previous := r.chain;
          issuerChain := r.chain;
        }
        written := written + [Attached(r.url, r.body, issuerChain)];
      }
      assert written + [] == written;
      assert Delta(previous, []) == [];
      collateral := written;
    }

    method HeldCollateral() returns (out: seq<Response>)
      ensures out == Held(None, collateral)
    {
      var chain: Chain := None;
      out := [];
      for i := 0 to |collateral|
        invariant out + Held(chain, collateral[i..]) == Held(None, collateral)
      {
        assert collateral[i..][1..] == collateral[i + 1..];
        if collateral[i].issuerChain.Some? {
          chain := collateral[i].issuerChain;
        }
        out := out + [Response(collateral[i].url, collateral[i].body, chain)];
      }
      assert out + [] == out;
    }
  }

  /** A reader gets every response back, roots removed, sorted stably by chain and URL: nothing added or lost. */
  lemma {:induction false} AttachRoundTrip(strip: Strip, rs: seq<Response>)
    ensures var read := Held(None, Written(strip, rs));
      && StableSort(Stripped(strip, rs), read)
      && multiset(read) == multiset(Stripped(strip, rs))
  {
    SortIsStable(Stripped(strip, rs));
    ReadIsSorted(strip, rs);
  }

  predicate OnlyAt(out: seq<Attached>, chain: Chain, k: int) {
    && 0 <= k < |out| && out[k].issuerChain == chain
    && forall j :: 0 <= j < |out| && out[j].issuerChain == chain ==> j == k
  }

  lemma {:induction false} SortKeepsEach(rs: seq<Response>, i: nat) returns (at: nat)
    requires i < |rs|
    ensures at < |Sort(rs)| && Sort(rs)[at] == rs[i]
  {
    SortIsStable(rs);
    assert rs[i] in multiset(Sort(rs));
    at :| 0 <= at < |Sort(rs)| && Sort(rs)[at] == rs[i];
  }

  /** Every chain that remains is written exactly once. */
  lemma {:induction false} EachChainOnce(strip: Strip, rs: seq<Response>, i: nat)
    requires i < |rs| && rs[i].chain.Some?
    ensures exists k :: OnlyAt(Written(strip, rs), Some(strip(rs[i].chain.value)), k)
  {
    var stripped := Stripped(strip, rs);
    var sorted := Sort(stripped);
    var out := Written(strip, rs);
    var at := SortKeepsEach(stripped, i);
    EachChainIsWritten(None, sorted, at);
    SortIsStable(stripped);
    WrittenAscending(None, sorted);
    var k :| 0 <= k <= at && out[k].issuerChain == stripped[i].chain;
    assert OnlyAt(out, stripped[i].chain, k);
  }

  lemma {:induction false} ReadIsSorted(strip: Strip, rs: seq<Response>)
    ensures Held(None, Written(strip, rs)) == Sort(Stripped(strip, rs))
  {
    SortIsStable(Stripped(strip, rs));
    SortedIsBareFirst(Sort(Stripped(strip, rs)));
    DeltaRoundTrip(None, Sort(Stripped(strip, rs)));
  }

  lemma {:induction false} SortAgain(rs: seq<Response>)
    ensures Sort(Sort(rs)) == Sort(rs)
  {
    SortIsStable(rs);
    SortIsStable(Sort(rs));
    StableSortIsUnique(Sort(Sort(rs)), Sort(rs));
  }

  lemma {:induction false} StripAgain(strip: Strip, rs: seq<Response>)
    requires forall c :: strip(strip(c)) == strip(c)
    ensures Stripped(strip, Sort(Stripped(strip, rs))) == Sort(Stripped(strip, rs))
  {
    hide Sort;
    var stripped := Stripped(strip, rs);
    var sorted := Sort(stripped);
    SortIsStable(stripped);
    forall i | 0 <= i < |sorted| ensures Stripped(strip, sorted)[i] == sorted[i] {
      assert sorted[i] in multiset(sorted);
      assert sorted[i] in stripped;
    }
  }

  /** What was read back and attached again is the identical list, when removing roots twice changes nothing more. */
  lemma {:induction false} AttachAgain(strip: Strip, rs: seq<Response>)
    requires forall c :: strip(strip(c)) == strip(c)
    ensures Written(strip, Held(None, Written(strip, rs))) == Written(strip, rs)
  {
    ReadIsSorted(strip, rs);
    StripAgain(strip, rs);
    SortAgain(Stripped(strip, rs));
  }
}
