/**
 NVIDIA's key set, cut for attachment to the keys the tokens name. Whoever
 verifies with the cut set must reach the verdicts the full set gives.

 Base64, JSON, certificate chains and signatures are behind values: a token
 carries what its header reads as, a key whether its chain leads to the anchor.
 */
module KeySet {
  import opened Prelude

  type Kid = string

  /** A key of a set; `entry` stands for its certificate chain. */
  datatype Key = Key(kid: Kid, entry: nat)

  datatype Header = Header(alg: string, crit: bool, kid: Option<Kid>)

  /** A compact JWS: how many parts, what the first reads as (an error when it does not), and the rest. */
  datatype Token = Token(parts: nat, header: Result<Header, JwsError>, signed: nat)

  datatype JwsError =
    | NotCompact | BadHeader(why: nat) | UnsupportedAlg(alg: string) | UnsupportedCrit | MissingKid
    | KidNotFound(kid: Kid) | KeyRefused | Invalid(why: nat)

  type Claims = nat

  /** One NRAS answer: its overall token and those of its submodules, when it has the expected shape. */
  datatype Answer = Answer(overall: Token, subs: seq<Token>) | Misshapen

  /** The checks of one key and one signature. */
  datatype Crypto = Crypto(
    // The chain of a key leads to the pinned anchor.
    anchored: Key -> bool,
    // Every certificate of it is in its validity period at a time.
    inPeriod: (Key, int) -> bool,
    // Signature, payload and time claims of a token under a key.
    claims: (Key, Token, int) -> Result<Claims, JwsError>)

  function Tokens(a: Answer): seq<Token> {
    match a
    case Answer(overall, subs) => [overall] + subs
    case Misshapen => []
  }

  /** The tokens of an answer: its overall one and those of its submodules. */
  predicate IsTokenOf(t: Token, a: Answer) {
    a.Answer? && (t == a.overall || t in a.subs)
  }

  lemma {:induction false} TokensAre(t: Token, a: Answer)
    ensures t in Tokens(a) <==> IsTokenOf(t, a)
  {}

  /** The kid a token names, if it can be read. */
  function KidOf(t: Token): Option<Kid> {
    match t.header
    case Ok(h) => h.kid
    case Err(_) => None
  }

  predicate Named(answers: seq<Answer>, kid: Kid) {
    exists i :: 0 <= i < |answers| && kid in Kids(Tokens(answers[i]))
  }

  function FirstKey(keys: seq<Key>, kid: Kid): (k: Option<Key>)
    ensures k.Some? ==> k.value in keys && k.value.kid == kid
  {
    if keys == [] then None else if keys[0].kid == kid then Some(keys[0]) else FirstKey(keys[1..], kid)
  }

  function VerifyJws(crypto: Crypto, t: Token, keys: seq<Key>, now: int): Result<Claims, JwsError> {
    if t.parts != 3 then
      Err(NotCompact)
    else
      var header :- t.header;
      if header.alg != "ES384" then Err(UnsupportedAlg(header.alg))
      else if header.crit then Err(UnsupportedCrit)
      else if header.kid.None? then Err(MissingKid)
      else
        match FirstKey(keys, header.kid.value)
        case None => Err(KidNotFound(header.kid.value))
        case Some(key) =>
          if crypto.anchored(key) && crypto.inPeriod(key, now) then crypto.claims(key, t, now) else Err(KeyRefused)
  }

  /** The `i`-th key is the first with this kid. */
  predicate IsFirstKey(keys: seq<Key>, kid: Kid, i: int) {
    0 <= i < |keys| && keys[i].kid == kid && forall j :: 0 <= j < i ==> keys[j].kid != kid
  }

  lemma {:induction false} FirstKeyMeans(keys: seq<Key>, kid: Kid, key: Key)
    ensures FirstKey(keys, kid) == Some(key) <==> exists i :: IsFirstKey(keys, kid, i) && keys[i] == key
    ensures FirstKey(keys, kid) == None <==> forall i :: 0 <= i < |keys| ==> keys[i].kid != kid
  {
    if keys != [] && keys[0].kid == kid {
      assert IsFirstKey(keys, kid, 0);
    } else if keys != [] {
      FirstKeyMeans(keys[1..], kid, key);
      if i :| IsFirstKey(keys[1..], kid, i) && keys[1..][i] == key {
        assert IsFirstKey(keys, kid, i + 1);
      }
      if i :| IsFirstKey(keys, kid, i) && keys[i] == key {
        assert keys[1..][i - 1] == keys[i] && forall j :: 0 <= j < i - 1 ==> keys[1..][j] == keys[j + 1];
        assert IsFirstKey(keys[1..], kid, i - 1);
      }
      assert forall i :: 0 <= i < |keys| - 1 ==> keys[1..][i] == keys[i + 1];
    }
  }

  /**
   Which tokens verify: compact, ES384 and nothing else, no critical extension, and
   the first key of the kid they name is under the anchor, in its period, and signed
   them. One whose kid is in the set but whose first key fails is not saved by a later key.
   */
  lemma {:induction false} VerifiesMeans(crypto: Crypto, t: Token, keys: seq<Key>, now: int, claims: Claims)
    ensures VerifyJws(crypto, t, keys, now) == Ok(claims)
       <==> && t.parts == 3 && t.header.Ok?
            && t.header.value.alg == "ES384" && !t.header.value.crit && t.header.value.kid.Some?
            && exists i :: IsFirstKey(keys, t.header.value.kid.value, i)
                 && crypto.anchored(keys[i]) && crypto.inPeriod(keys[i], now) && crypto.claims(keys[i], t, now) == Ok(claims)
  {
    hide FirstKey;
    if t.header.Ok? && t.header.value.kid.Some? {
      var kid := t.header.value.kid.value;
      var first := FirstKey(keys, kid);
      FirstKeyMeans(keys, kid, if first.Some? then first.value else Key(kid, 0));
    }
  }

  /** The error that has the key set fetched anew: all before it is right, and no key has the kid. */
  lemma {:induction false} KidNotFoundMeans(crypto: Crypto, t: Token, keys: seq<Key>, now: int, kid: Kid)
    requires t.header != Err(KidNotFound(kid)) && forall key :: crypto.claims(key, t, now) != Err(KidNotFound(kid))
    ensures VerifyJws(crypto, t, keys, now) == Err(KidNotFound(kid))
       <==> && t.parts == 3 && t.header.Ok?
            && t.header.value.alg == "ES384" && !t.header.value.crit && t.header.value.kid == Some(kid)
            && forall i :: 0 <= i < |keys| ==> keys[i].kid != kid
  {
    hide FirstKey;
    FirstKeyMeans(keys, kid, Key(kid, 0));
  }

  /** Whatever the keys: a token of another shape, algorithm or with critical extensions fails for that reason, in this order. */
  lemma {:induction false} TokenIsLookedAtFirst(crypto: Crypto, t: Token, keys: seq<Key>, now: int)
    ensures var r := VerifyJws(crypto, t, keys, now);
      && (t.parts != 3 ==> r == Err(NotCompact))
      && (t.parts == 3 && t.header.Err? ==> r == Err(t.header.error))
      && (t.parts == 3 && t.header.Ok? ==>
            var h := t.header.value;
            && (h.alg != "ES384" ==> r == Err(UnsupportedAlg(h.alg)))
            && (h.alg == "ES384" && h.crit ==> r == Err(UnsupportedCrit))
            && (h.alg == "ES384" && !h.crit && h.kid.None? ==> r == Err(MissingKid))
            && (h.alg == "ES384" && !h.crit && h.kid.Some? ==>
                  forall i :: IsFirstKey(keys, h.kid.value, i) && !(crypto.anchored(keys[i]) && crypto.inPeriod(keys[i], now)) ==>
                    r == Err(KeyRefused)))
  {
    if t.header.Ok? && t.header.value.kid.Some? {
      forall i | IsFirstKey(keys, t.header.value.kid.value, i) ensures FirstKey(keys, t.header.value.kid.value) == Some(keys[i]) {
        FirstKeyMeans(keys, t.header.value.kid.value, keys[i]);
      }
    }
  }

  /** As a piece of collateral: at least one key under the anchor, at no particular time. */
  predicate SetVerifies(crypto: Crypto, keys: seq<Key>) {
    exists i :: 0 <= i < |keys| && crypto.anchored(keys[i])
  }

  /** Every answer has its shape, and every kid a token names is in the set. */
  predicate Known(keys: seq<Key>, answers: seq<Answer>) {
    forall i :: 0 <= i < |answers| ==> answers[i].Answer? && AllFound(keys, Tokens(answers[i]))
  }

  predicate AllFound(keys: seq<Key>, tokens: seq<Token>) {
    forall j :: 0 <= j < |tokens| && KidOf(tokens[j]).Some? ==> FirstKey(keys, KidOf(tokens[j]).value).Some?
  }

  // --------------------------------------------------------------------- the cut

  function Kids(tokens: seq<Token>): (kids: seq<Kid>)
    ensures forall kid :: kid in kids <==> exists j :: 0 <= j < |tokens| && KidOf(tokens[j]) == Some(kid)
  {
    if tokens == [] then []
    else
      var n := |tokens| - 1;
      Kids(tokens[..n]) + match KidOf(tokens[n]) case Some(kid) => [kid] case None => []
  }

  function Retained(keys: seq<Key>, kids: seq<Kid>): (kept: seq<Key>)
    ensures forall k :: k in kept <==> k in keys && k.kid in kids
  {
    if keys == [] then []
    else
      var n := |keys| - 1;
      assert keys == keys[..n] + [keys[n]];
      Retained(keys[..n], kids) + if keys[n].kid in kids then [keys[n]] else []
  }

  /** `cut` is `keys` with only those whose kid a token of the answers names. */
  ghost predicate IsCut(keys: seq<Key>, answers: seq<Answer>, cut: seq<Key>) {
    exists kids :: cut == Retained(keys, kids) && forall kid :: kid in kids <==> Named(answers, kid)
  }

  method CollectKids(answers: seq<Answer>) returns (kids: seq<Kid>)
    ensures forall kid :: kid in kids <==> Named(answers, kid)
  {
    hide Named, Kids;
    kids := [];
    NoneNamed(answers[..0]);
    for i := 0 to |answers|
      invariant forall kid :: kid in kids <==> Named(answers[..i], kid)
    {
      OneAnswerMore(answers, i);
      kids := kids + Kids(Tokens(answers[i]));
    }
    assert answers[..|answers|] == answers;
  }

  lemma {:induction false} NoneNamed(answers: seq<Answer>)
    requires answers == []
    ensures forall kid :: !Named(answers, kid)
  {}

  lemma {:induction false} NamedInLast(answers: seq<Answer>, i: nat, kid: Kid)
    requires i < |answers|
    ensures Named(answers[..i + 1], kid) <==> Named(answers[..i], kid) || kid in Kids(Tokens(answers[i]))
  {
    hide Kids, Tokens;
    if Named(answers[..i], kid) {
      var a :| 0 <= a < i && kid in Kids(Tokens(answers[..i][a]));
      assert answers[..i + 1][a] == answers[a];
    }
    if Named(answers[..i + 1], kid) {
      var a :| 0 <= a <= i && kid in Kids(Tokens(answers[..i + 1][a]));
      assert a < i ==> answers[..i][a] == answers[a];
    }
    assert answers[..i + 1][i] == answers[i];
  }

  lemma {:induction false} OneAnswerMore(answers: seq<Answer>, i: nat)
    requires i < |answers|
    ensures forall kid :: Named(answers[..i + 1], kid) <==> Named(answers[..i], kid) || kid in Kids(Tokens(answers[i]))
  {
    hide Named, Kids;
    forall kid ensures Named(answers[..i + 1], kid) <==> Named(answers[..i], kid) || kid in Kids(Tokens(answers[i])) {
      NamedInLast(answers, i, kid);
    }
  }

  /** The key set for attachment; a body that is no key set is passed on as it is. */
  method KeysUsed(jwks: Option<seq<Key>>, answers: seq<Answer>) returns (cut: Option<seq<Key>>)
    ensures cut.Some? <==> jwks.Some?
    ensures cut.Some? ==> IsCut(jwks.value, answers, cut.value)
  {
    var kids := CollectKids(answers);
    if jwks.None? {
      return None;
    }
    var keys := jwks.value;
    var kept: seq<Key> := [];
    for i := 0 to |keys|
      invariant kept == Retained(keys[..i], kids)
    {
      assert keys[..i + 1][..i] == keys[..i];
      if keys[i].kid in kids {
        kept := kept + [keys[i]];
      }
    }
    assert keys[..|keys|] == keys;
    cut := Some(kept);
  }

  // ----------------------------------------------------- nothing changes for the tokens

  lemma {:induction false} FirstKeyAppends(a: seq<Key>, b: seq<Key>, kid: Kid)
    ensures FirstKey(a + b, kid) == if FirstKey(a, kid).Some? then FirstKey(a, kid) else FirstKey(b, kid)
  {
    if a == [] {
      assert a + b == b;
    } else {
      FirstKeyAppends(a[1..], b, kid);
      assert (a + b)[1..] == a[1..] + b;
    }
  }

  /** Looking up a named kid finds the very same key, also when several keys share the kid. */
  lemma {:induction false} CutKeepsTheFirstKey(keys: seq<Key>, kids: seq<Kid>, kid: Kid)
    ensures FirstKey(Retained(keys, kids), kid) == if kid in kids then FirstKey(keys, kid) else None
  {
    if keys != [] {
      var n := |keys| - 1;
      CutKeepsTheFirstKey(keys[..n], kids, kid);
      assert keys == keys[..n] + [keys[n]];
      FirstKeyAppends(keys[..n], [keys[n]], kid);
      FirstKeyAppends(Retained(keys[..n], kids), if keys[n].kid in kids then [keys[n]] else [], kid);
    }
  }

  lemma {:induction false} CutLookup(keys: seq<Key>, answers: seq<Answer>, cut: seq<Key>, kid: Kid)
    requires IsCut(keys, answers, cut)
    ensures FirstKey(cut, kid) == if Named(answers, kid) then FirstKey(keys, kid) else None
  {
    var kids :| cut == Retained(keys, kids) && forall kid :: kid in kids <==> Named(answers, kid);
    CutKeepsTheFirstKey(keys, kids, kid);
  }

  /** Every token of every answer verifies against the cut set as it does against the full one, error included. */
  lemma {:induction false} CutKeepsEveryVerdict(crypto: Crypto, keys: seq<Key>, answers: seq<Answer>, cut: seq<Key>,
                                                a: Answer, t: Token, now: int)
    requires IsCut(keys, answers, cut) && a in answers && IsTokenOf(t, a)
    ensures VerifyJws(crypto, t, cut, now) == VerifyJws(crypto, t, keys, now)
  {
    hide FirstKey, Named, IsCut, Tokens;
    var kid := KidOf(t);
    if kid.Some? {
      CutLookup(keys, answers, cut, kid.value);
      TokenNames(answers, a, t, kid.value);
    }
  }

  lemma {:induction false} TokenNames(answers: seq<Answer>, a: Answer, t: Token, kid: Kid)
    requires a in answers && IsTokenOf(t, a) && KidOf(t) == Some(kid)
    ensures Named(answers, kid)
  {
    TokensAre(t, a);
    var i :| 0 <= i < |answers| && answers[i] == a;
    assert kid in Kids(Tokens(answers[i]));
  }

  /** Whether a kid is missing is the same question of both sets. */
  lemma {:induction false} CutKeepsKnown(keys: seq<Key>, answers: seq<Answer>, cut: seq<Key>)
    requires IsCut(keys, answers, cut)
    ensures Known(cut, answers) <==> Known(keys, answers)
  {
    forall i, j | 0 <= i < |answers| && 0 <= j < |Tokens(answers[i])| && KidOf(Tokens(answers[i])[j]).Some?
      ensures FirstKey(cut, KidOf(Tokens(answers[i])[j]).value) == FirstKey(keys, KidOf(Tokens(answers[i])[j]).value)
    {
      var kid := KidOf(Tokens(answers[i])[j]).value;
      CutLookup(keys, answers, cut, kid);
      assert Named(answers, kid);
    }
    forall i | 0 <= i < |answers|
      ensures AllFound(cut, Tokens(answers[i])) <==> AllFound(keys, Tokens(answers[i]))
    {}
  }

  /** When no key set is fetched anew: every answer has its shape, and each kid any of its tokens names is that of some key. */
  lemma {:induction false} KnownMeans(keys: seq<Key>, answers: seq<Answer>)
    ensures Known(keys, answers)
       <==> && (forall a :: a in answers ==> a.Answer?)
            && (forall a :: a in answers ==> AllHaveKeys(keys, a))
  {
    forall i | 0 <= i < |answers| ensures AllFound(keys, Tokens(answers[i])) <==> AllHaveKeys(keys, answers[i]) {
      AllFoundMeans(keys, answers[i]);
    }
    hide Tokens, AllFound, IsTokenOf;
    if Known(keys, answers) {
      forall a | a in answers ensures a.Answer? && AllHaveKeys(keys, a) {
        var i :| 0 <= i < |answers| && answers[i] == a;
      }
    }
  }

  /** Each kid a token of the answer names is that of some key. */
  ghost predicate AllHaveKeys(keys: seq<Key>, a: Answer) {
    forall t, kid :: IsTokenOf(t, a) && KidOf(t) == Some(kid) ==> HasKey(keys, kid)
  }

  predicate HasKey(keys: seq<Key>, kid: Kid) {
    exists i :: 0 <= i < |keys| && keys[i].kid == kid
  }

  lemma {:induction false} AllFoundMeans(keys: seq<Key>, a: Answer)
    ensures AllFound(keys, Tokens(a)) <==> AllHaveKeys(keys, a)
  {
    forall t, kid | IsTokenOf(t, a) && KidOf(t) == Some(kid)
      ensures HasKey(keys, kid) <==> FirstKey(keys, kid).Some?
      ensures exists j :: 0 <= j < |Tokens(a)| && Tokens(a)[j] == t
    {
      FirstKeyMeans(keys, kid, Key(kid, 0));
      TokensAre(t, a);
    }
    forall j | 0 <= j < |Tokens(a)| ensures IsTokenOf(Tokens(a)[j], a) {
      TokensAre(Tokens(a)[j], a);
    }
  }

  // --------------------------------------------------- whether the cut set is still a set

  /** The cut set is accepted as collateral exactly when a key under the anchor is named. */
  lemma {:induction false} CutSetVerifies(crypto: Crypto, keys: seq<Key>, answers: seq<Answer>, cut: seq<Key>)
    requires IsCut(keys, answers, cut)
    ensures SetVerifies(crypto, cut) <==> exists i :: 0 <= i < |keys| && crypto.anchored(keys[i]) && Named(answers, keys[i].kid)
  {
    var kids :| cut == Retained(keys, kids) && forall kid :: kid in kids <==> Named(answers, kid);
    if SetVerifies(crypto, cut) {
      var i :| 0 <= i < |cut| && crypto.anchored(cut[i]);
      assert cut[i] in keys;
    }
    if i :| 0 <= i < |keys| && crypto.anchored(keys[i]) && Named(answers, keys[i].kid) {
      assert keys[i] in cut;
    }
  }

  /** One token that verifies is enough: the set it verified with stays a set when cut. */
  lemma {:induction false} VerifyingTokenKeepsTheSet(crypto: Crypto, keys: seq<Key>, answers: seq<Answer>,
                                                     cut: seq<Key>, a: Answer, t: Token, now: int)
    requires IsCut(keys, answers, cut) && a in answers && IsTokenOf(t, a)
    requires VerifyJws(crypto, t, keys, now).Ok?
    ensures SetVerifies(crypto, cut)
  {
    var kid := KidOf(t).value;
    var key := FirstKey(keys, kid).value;
    TokenNames(answers, a, t, kid);
    CutSetVerifies(crypto, keys, answers, cut);
    var at :| 0 <= at < |keys| && keys[at] == key;
  }

  /** Without one it need not: a set that is accepted, cut for a token that names none of its keys, is refused. */
  lemma {:induction false} CutSetCanFail(crypto: Crypto, key: Key, stranger: Token, cut: seq<Key>)
    requires crypto.anchored(key) && KidOf(stranger).Some? && KidOf(stranger).value != key.kid
    requires IsCut([key], [Answer(stranger, [])], cut)
    ensures SetVerifies(crypto, [key]) && !SetVerifies(crypto, cut)
  {
    assert crypto.anchored([key][0]);
    CutSetVerifies(crypto, [key], [Answer(stranger, [])], cut);
  }
}
