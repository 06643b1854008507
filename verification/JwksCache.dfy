/** The signing-key cache: how often it may ask the provider, and which key it returns.

    Calls run one at a time, since each holds the cache's mutex from its first clock reading
    until it returns. What the provider answered, if it was asked, and the time at which the
    answer was in are parameters of the call; a call abandoned while it waits is one whose
    fetch failed. JWK Sets and `kid` are sections 5 and 4.5 of RFC 7517.
  */
module JwksCache {
  import opened Common

  const COOLDOWN: int := 30 * SECOND

  datatype Jwk = Jwk(kid: string, material: string)

  datatype FetchError = AccountNotAllowed | ProviderUnavailable

  type Document = seq<Jwk>

  datatype Call = Call(kid: string, now: Time, answer: Option<Document>, done: Time)

  datatype Cache = Cache(document: Option<Document>, fetchedAt: Option<Time>, lastUnknown: Option<Time>)

  /** What a call did about the provider. */
  datatype Fetch = NotAsked | Stale(got: Option<Document>) | Unknown(got: Option<Document>)

  datatype Outcome = Outcome(cache: Cache, fetch: Fetch, key: Result<Jwk, FetchError>)

  const EMPTY: Cache := Cache(None, None, None)

  function Matching(keys: Document, kid: string): Document {
    if keys == [] then []
    else (if keys[0].kid == kid then [keys[0]] else []) + Matching(keys[1..], kid)
  }

  /** The entry for `kid`; none or several is an error. */
  function KeyOf(keys: Document, kid: string): Result<Jwk, FetchError> {
    if |Matching(keys, kid)| == 1 then Ok(Matching(keys, kid)[0]) else Err(AccountNotAllowed)
  }

  ghost predicate OnlyEntry(keys: Document, kid: string, key: Jwk) {
    exists i :: 0 <= i < |keys| && keys[i] == key && key.kid == kid
                && forall j :: 0 <= j < |keys| && j != i ==> keys[j].kid != kid
  }

  predicate Fresh(c: Cache, now: Time, ttl: int) {
    c.fetchedAt.Some? && now - c.fetchedAt.value < ttl
  }

  predicate Cooling(c: Cache, now: Time) {
    c.lastUnknown.Some? && now - c.lastUnknown.value < COOLDOWN
  }

  function Decoded(key: Result<Jwk, FetchError>, usable: Jwk -> bool): Result<Jwk, FetchError> {
    if key.Ok? && !usable(key.value) then Err(AccountNotAllowed) else key
  }

  /** The cache after an answer, or as it was if there was none. */
  function Refreshed(c: Cache, call: Call): Cache {
    match call.answer
    case None => c
    case Some(document) => c.(document := Some(document), fetchedAt := Some(call.done))
  }

  function Answer(call: Call, usable: Jwk -> bool): Result<Jwk, FetchError> {
    match call.answer
    case None => Err(ProviderUnavailable)
    case Some(document) => Decoded(KeyOf(document, call.kid), usable)
  }

  function Lookup(c: Cache, call: Call, ttl: int, usable: Jwk -> bool): Outcome {
    if !Fresh(c, call.now, ttl) then
      Outcome(Refreshed(c, call), Stale(call.answer), Answer(call, usable))
    else if c.document.Some? && KeyOf(c.document.value, call.kid).Ok? then
      Outcome(c, NotAsked, Decoded(KeyOf(c.document.value, call.kid), usable))
    else if Cooling(c, call.now) then
      Outcome(c, NotAsked, Err(AccountNotAllowed))
    else
      Outcome(Refreshed(c.(lastUnknown := Some(call.now)), call), Unknown(call.answer), Answer(call, usable))
  }

  /** The cached document is younger than the TTL. */
  predicate IsYoung(c: Cache, now: Time, ttl: int) {
    c.fetchedAt.Some? && now < c.fetchedAt.value + ttl
  }

  ghost predicate Knows(c: Cache, kid: string) {
    c.document.Some? && exists key :: OnlyEntry(c.document.value, kid, key)
  }

  /** The provider is asked: the document is old, or it lacks the kid and no kid was unknown
      within the last 30 seconds. */
  ghost predicate Asks(c: Cache, call: Call, ttl: int) {
    || !IsYoung(c, call.now, ttl)
    || (!Knows(c, call.kid) && (c.lastUnknown.None? || call.now >= c.lastUnknown.value + 30 * SECOND))
  }

  /** A key is answered exactly when it is the only entry for its kid, and usable, in the
      document at hand: the answer just fetched if the provider was asked, otherwise the
      cached one. A fetch that succeeds replaces the document; asking because of an unknown
      kid starts the cooldown, whether or not it succeeds. */
  ghost predicate AnswersExactly(c: Cache, call: Call, ttl: int, usable: Jwk -> bool, c': Cache, answer: Result<Jwk, FetchError>) {
    && (forall key :: answer == Ok(key) <==>
          && usable(key)
          && if Asks(c, call, ttl) then call.answer.Some? && OnlyEntry(call.answer.value, call.kid, key)
             else c.document.Some? && OnlyEntry(c.document.value, call.kid, key))
    && (answer == Err(ProviderUnavailable) <==> Asks(c, call, ttl) && call.answer.None?)
    && c'.document == (if Asks(c, call, ttl) && call.answer.Some? then call.answer else c.document)
    && c'.fetchedAt == (if Asks(c, call, ttl) && call.answer.Some? then Some(call.done) else c.fetchedAt)
    && c'.lastUnknown == (if Asks(c, call, ttl) && IsYoung(c, call.now, ttl) then Some(call.now) else c.lastUnknown)
  }

  lemma KnowsExactly(keys: Document, kid: string)
    ensures KeyOf(keys, kid).Ok? <==> exists key :: OnlyEntry(keys, kid, key)
  {
    if KeyOf(keys, kid).Ok? {
      KeyIsOnlyEntry(keys, kid, KeyOf(keys, kid).value);
    }
    if key :| OnlyEntry(keys, kid, key) {
      KeyIsOnlyEntry(keys, kid, key);
    }
  }

  lemma DecodedExactly(keys: Document, kid: string, usable: Jwk -> bool)
    ensures forall key :: Decoded(KeyOf(keys, kid), usable) == Ok(key) <==> usable(key) && OnlyEntry(keys, kid, key)
  {
    forall key ensures Decoded(KeyOf(keys, kid), usable) == Ok(key) <==> usable(key) && OnlyEntry(keys, kid, key) {
      KeyIsOnlyEntry(keys, kid, key);
    }
  }

  lemma AsksExactly(c: Cache, call: Call, ttl: int, usable: Jwk -> bool)
    ensures Asks(c, call, ttl) <==> !Lookup(c, call, ttl, usable).fetch.NotAsked?
    ensures IsYoung(c, call.now, ttl) <==> Fresh(c, call.now, ttl)
  {
    if c.document.Some? {
      KnowsExactly(c.document.value, call.kid);
    }
  }

  /** This holds of every cache, every lookup and every reply. */
  lemma LookupAnswersExactly(c: Cache, call: Call, ttl: int, usable: Jwk -> bool)
    ensures AnswersExactly(c, call, ttl, usable, Lookup(c, call, ttl, usable).cache, Lookup(c, call, ttl, usable).key)
  {
    AsksExactly(c, call, ttl, usable);
    if call.answer.Some? {
      DecodedExactly(call.answer.value, call.kid, usable);
    }
    if c.document.Some? {
      KnowsExactly(c.document.value, call.kid);
      DecodedExactly(c.document.value, call.kid, usable);
    }
  }

  class EntraOidcClient {
    var document: Option<Document>
    var fetchedAt: Option<Time>
    var lastUnknown: Option<Time>

    function Contents(): Cache
      reads this
    {
      Cache(document, fetchedAt, lastUnknown)
    }

    constructor ()
      ensures Contents() == EMPTY
    {
      document, fetchedAt, lastUnknown := None, None, None;
    }

    method DecodingKey(call: Call, ttl: int, usable: Jwk -> bool) returns (key: Result<Jwk, FetchError>)
      modifies this
      ensures Contents() == Lookup(old(Contents()), call, ttl, usable).cache
      ensures key == Lookup(old(Contents()), call, ttl, usable).key
      ensures key.Ok? ==>
        && document.Some? && OnlyEntry(document.value, call.kid, key.value) && usable(key.value)
        && fetchedAt.Some? && (call.now - fetchedAt.value < ttl || (fetchedAt.value == call.done && document == call.answer))
      ensures fetchedAt == old(fetchedAt) || (fetchedAt == Some(call.done) && document == call.answer)
      ensures AnswersExactly(old(Contents()), call, ttl, usable, Contents(), key)
      ensures Fresh(old(Contents()), call.now, ttl) && Cooling(old(Contents()), call.now) ==> Contents() == old(Contents())
    {
      LookupAnswersExactly(Contents(), call, ttl, usable);
      var isFresh := fetchedAt.Some? && call.now - fetchedAt.value < ttl;
      if isFresh {
        if document.Some? {
          var entry := KeyOf(document.value, call.kid);
          if entry.Ok? {
            KeyIsOnlyEntry(document.value, call.kid, entry.value);
            return if usable(entry.value) then entry else Err(AccountNotAllowed);
          }
        }
        if lastUnknown.Some? && call.now - lastUnknown.value < COOLDOWN {
          return Err(AccountNotAllowed);
        }
        lastUnknown := Some(call.now);
      }
      if call.answer.None? {
        return Err(ProviderUnavailable);
      }
      document := call.answer;
      fetchedAt := Some(call.done);
      key := KeyOf(call.answer.value, call.kid);
      if key.Ok? {
        KeyIsOnlyEntry(call.answer.value, call.kid, key.value);
      }
      if key.Ok? && !usable(key.value) {
        key := Err(AccountNotAllowed);
      }
    }
  }

  /** The outcomes of a run of calls. */
  function Play(c: Cache, calls: seq<Call>, ttl: int, usable: Jwk -> bool): (outcomes: seq<Outcome>)
    ensures |outcomes| == |calls|
    decreases |calls|
  {
    if calls == [] then []
    else
      var first := Lookup(c, calls[0], ttl, usable);
      [first] + Play(first.cache, calls[1..], ttl, usable)
  }

  /** Calls run one after the other and start between `from` and `to`. */
  predicate Timed(calls: seq<Call>, from: Time, to: Time) {
    calls != [] ==>
      && from <= calls[0].now <= calls[0].done && calls[0].now <= to
      && Timed(calls[1..], calls[0].done, to)
  }

  // ---------------------------------------------------------------- which key

  lemma {:induction false} MatchingNone(keys: Document, kid: string)
    ensures Matching(keys, kid) == [] <==> forall j :: 0 <= j < |keys| ==> keys[j].kid != kid
  {
    if keys != [] {
      MatchingNone(keys[1..], kid);
      assert forall j :: 1 <= j < |keys| ==> keys[j] == keys[1..][j - 1];
    }
  }

  lemma {:induction false} MatchingOne(keys: Document, kid: string, key: Jwk)
    ensures Matching(keys, kid) == [key] <==> OnlyEntry(keys, kid, key)
  {
    if keys != [] {
      var rest := keys[1..];
      MatchingNone(rest, kid);
      MatchingOne(rest, kid, key);
      assert forall j :: 1 <= j < |keys| ==> keys[j] == rest[j - 1];
      if keys[0].kid == kid {
        assert Matching(keys, kid)[1..] == Matching(rest, kid) && Matching(keys, kid)[0] == keys[0];
        assert Matching(rest, kid) == [] ==> Matching(keys, kid) == [keys[0]];
        if i :| 0 <= i < |keys| && keys[i] == key && key.kid == kid && forall j :: 0 <= j < |keys| && j != i ==> keys[j].kid != kid {
          assert i == 0;
        }
      } else {
        if i :| 0 <= i < |rest| && rest[i] == key && key.kid == kid && forall j :: 0 <= j < |rest| && j != i ==> rest[j].kid != kid {
          assert keys[i + 1] == key;
          assert OnlyEntry(keys, kid, key);
        }
        if i :| 0 <= i < |keys| && keys[i] == key && key.kid == kid && forall j :: 0 <= j < |keys| && j != i ==> keys[j].kid != kid {
          assert rest[i - 1] == key;
          assert OnlyEntry(rest, kid, key);
        }
      }
    }
  }

  lemma KeyIsOnlyEntry(keys: Document, kid: string, key: Jwk)
    ensures KeyOf(keys, kid) == Ok(key) <==> OnlyEntry(keys, kid, key)
  {
    MatchingOne(keys, kid, key);
  }

  /** The last of the outcomes that brought a document; -1 if none did. */
  function LastGot(outcomes: seq<Outcome>): (k: int)
    ensures -1 <= k < |outcomes|
    ensures k >= 0 ==> !outcomes[k].fetch.NotAsked? && outcomes[k].fetch.got.Some?
    ensures forall j :: k < j < |outcomes| ==> outcomes[j].fetch.NotAsked? || outcomes[j].fetch.got.None?
  {
    if outcomes == [] then -1
    else
      var last := |outcomes| - 1;
      if !outcomes[last].fetch.NotAsked? && outcomes[last].fetch.got.Some? then last
      else LastGot(outcomes[..last])
  }

  /** The cache holds the latest document and when it came. */
  predicate HoldsLatest(c: Cache, calls: seq<Call>, outcomes: seq<Outcome>)
    requires |calls| == |outcomes|
  {
    var k := LastGot(outcomes);
    if k == -1 then c.document == None && c.fetchedAt == None
    else c.document == outcomes[k].fetch.got && c.fetchedAt == Some(calls[k].done)
  }

  /** A key was returned from the latest document, fetched by this very call or still fresh. */
  ghost predicate KeyIsCurrent(calls: seq<Call>, outcomes: seq<Outcome>, i: nat, ttl: int, usable: Jwk -> bool)
    requires |calls| == |outcomes| && i < |calls|
  {
    outcomes[i].key.Ok? ==>
      var k := LastGot(outcomes[..i + 1]);
      && k >= 0
      && OnlyEntry(outcomes[k].fetch.got.value, calls[i].kid, outcomes[i].key.value)
      && usable(outcomes[i].key.value)
      && (k == i || calls[i].now - calls[k].done < ttl)
  }

  lemma LookupIsCurrent(c: Cache, calls: seq<Call>, outcomes: seq<Outcome>, call: Call, ttl: int, usable: Jwk -> bool)
    requires |calls| == |outcomes| && HoldsLatest(c, calls, outcomes)
    ensures var o := Lookup(c, call, ttl, usable);
            && HoldsLatest(o.cache, calls + [call], outcomes + [o])
            && KeyIsCurrent(calls + [call], outcomes + [o], |calls|, ttl, usable)
  {
    var o := Lookup(c, call, ttl, usable);
    var all := outcomes + [o];
    assert all[..|all| - 1] == outcomes && all[..|calls| + 1] == all;
    if o.key.Ok? {
      var k := LastGot(all);
      KeyIsOnlyEntry(all[k].fetch.got.value, call.kid, o.key.value);
    }
  }

  lemma {:induction false} CurrentFrom(c: Cache, done: seq<Call>, outcomes: seq<Outcome>, rest: seq<Call>, ttl: int, usable: Jwk -> bool)
    requires |done| == |outcomes| && HoldsLatest(c, done, outcomes)
    requires forall i :: 0 <= i < |done| ==> KeyIsCurrent(done, outcomes, i, ttl, usable)
    ensures forall i :: 0 <= i < |done| + |rest| ==>
              KeyIsCurrent(done + rest, outcomes + Play(c, rest, ttl, usable), i, ttl, usable)
    decreases |rest|
  {
    if rest == [] {
      assert done + rest == done && outcomes + Play(c, rest, ttl, usable) == outcomes;
    } else {
      var call, o := rest[0], Lookup(c, rest[0], ttl, usable);
      LookupIsCurrent(c, done, outcomes, call, ttl, usable);
      var done', outcomes' := done + [call], outcomes + [o];
      forall i | 0 <= i < |done'| ensures KeyIsCurrent(done', outcomes', i, ttl, usable) {
        if i < |done| {
          assert KeyIsCurrent(done, outcomes, i, ttl, usable);
          assert outcomes'[..i + 1] == outcomes[..i + 1];
        }
      }
      CurrentFrom(o.cache, done', outcomes', rest[1..], ttl, usable);
      assert done' + rest[1..] == done + rest;
      assert outcomes' + Play(o.cache, rest[1..], ttl, usable) == outcomes + Play(c, rest, ttl, usable);
    }
  }

  /** Every key ever returned is the only entry for its kid in the document fetched last,
      and that document was fetched by the same call or is younger than the TTL. */
  lemma ReturnedKeysAreCurrent(calls: seq<Call>, ttl: int, usable: Jwk -> bool)
    ensures forall i :: 0 <= i < |calls| ==> KeyIsCurrent(calls, Play(EMPTY, calls, ttl, usable), i, ttl, usable)
  {
    CurrentFrom(EMPTY, [], [], calls, ttl, usable);
    assert [] + calls == calls && [] + Play(EMPTY, calls, ttl, usable) == Play(EMPTY, calls, ttl, usable);
  }

  // ---------------------------------------------------------------- how often

  predicate Brought(f: Fetch) {
    !f.NotAsked? && f.got.Some?
  }

  function StaleSuccesses(outcomes: seq<Outcome>): nat {
    if outcomes == [] then 0
    else (if outcomes[0].fetch.Stale? && Brought(outcomes[0].fetch) then 1 else 0) + StaleSuccesses(outcomes[1..])
  }

  function UnknownAttempts(outcomes: seq<Outcome>): nat {
    if outcomes == [] then 0
    else (if outcomes[0].fetch.Unknown? then 1 else 0) + UnknownAttempts(outcomes[1..])
  }

  function Successes(outcomes: seq<Outcome>): nat {
    if outcomes == [] then 0
    else (if Brought(outcomes[0].fetch) then 1 else 0) + Successes(outcomes[1..])
  }

  function Attempts(outcomes: seq<Outcome>): nat {
    if outcomes == [] then 0
    else (if outcomes[0].fetch.NotAsked? then 0 else 1) + Attempts(outcomes[1..])
  }

  /** How many instants at least `period` apart fit between `from` and `to`. */
  function Fits(from: Time, to: Time, period: int): nat
    requires period > 0
  {
    if to < from then 0 else (to - from) / period + 1
  }

  lemma TakeOne(from: Time, at: Time, to: Time, period: int)
    requires period > 0 && from <= at <= to
    ensures Fits(at + period, to, period) + 1 == Fits(at, to, period) <= Fits(from, to, period)
  {
    FewerFit(from, at, to, period);
    if at + period <= to {
      QuotientIs(to - at, period, (to - at - period) / period + 1);
    } else {
      QuotientIs(to - at, period, 0);
    }
  }

  lemma FewerFit(from: Time, later: Time, to: Time, period: int)
    requires period > 0 && from <= later
    ensures Fits(later, to, period) <= Fits(from, to, period)
  {
    if later <= to {
      DivOrdered(to - later, to - from, period);
    }
  }

  lemma QuotientIs(n: int, period: int, q: int)
    requires period > 0 && q * period <= n < (q + 1) * period
    ensures n / period == q
  {
    var p := n / period;
    assert p * period <= n < (p + 1) * period;
    MulOrdered(p, q, period);
    MulOrdered(q, p, period);
  }

  lemma MulOrdered(p: int, q: int, period: int)
    requires period > 0 && p * period < (q + 1) * period
    ensures p <= q
  {
  }

  lemma DivOrdered(x: int, y: int, period: int)
    requires x <= y && period > 0
    ensures x / period <= y / period
  {
    MulOrdered(x / period, y / period, period);
  }

  predicate Past(c: Cache, from: Time) {
    c.fetchedAt.Some? ==> c.fetchedAt.value <= from
  }

  /** The earliest time from which the cache may ask again for a known key set. */
  function NextStale(c: Cache, from: Time, ttl: int): Time {
    if c.fetchedAt.Some? then Max(from, c.fetchedAt.value + ttl) else from
  }

  function NextUnknown(c: Cache, from: Time): Time {
    if c.lastUnknown.Some? then Max(from, c.lastUnknown.value + COOLDOWN) else from
  }

  lemma {:induction false} StaleSuccessesFit(c: Cache, calls: seq<Call>, from: Time, to: Time, ttl: int, usable: Jwk -> bool)
    requires ttl > 0 && Past(c, from) && Timed(calls, from, to)
    ensures StaleSuccesses(Play(c, calls, ttl, usable)) <= Fits(NextStale(c, from, ttl), to, ttl)
    decreases |calls|
  {
    if calls != [] {
      var call, o := calls[0], Lookup(c, calls[0], ttl, usable);
      StaleSuccessesFit(o.cache, calls[1..], call.done, to, ttl, usable);
      assert Play(c, calls, ttl, usable)[1..] == Play(o.cache, calls[1..], ttl, usable);
      if o.fetch.Stale? && Brought(o.fetch) {
        TakeOne(NextStale(c, from, ttl), call.now, to, ttl);
        FewerFit(call.now + ttl, NextStale(o.cache, call.done, ttl), to, ttl);
      } else {
        FewerFit(NextStale(c, from, ttl), NextStale(o.cache, call.done, ttl), to, ttl);
      }
    }
  }

  lemma {:induction false} UnknownAttemptsFit(c: Cache, calls: seq<Call>, from: Time, to: Time, ttl: int, usable: Jwk -> bool)
    requires Timed(calls, from, to)
    ensures UnknownAttempts(Play(c, calls, ttl, usable)) <= Fits(NextUnknown(c, from), to, COOLDOWN)
    decreases |calls|
  {
    if calls != [] {
      var call, o := calls[0], Lookup(c, calls[0], ttl, usable);
      UnknownAttemptsFit(o.cache, calls[1..], call.done, to, ttl, usable);
      assert Play(c, calls, ttl, usable)[1..] == Play(o.cache, calls[1..], ttl, usable);
      if o.fetch.Unknown? {
        TakeOne(NextUnknown(c, from), call.now, to, COOLDOWN);
        FewerFit(call.now + COOLDOWN, NextUnknown(o.cache, call.done), to, COOLDOWN);
      } else {
        FewerFit(NextUnknown(c, from), NextUnknown(o.cache, call.done), to, COOLDOWN);
      }
    }
  }

  /** Failed fetches of a call that found the cache stale. */
  function StaleFailures(outcomes: seq<Outcome>): nat {
    if outcomes == [] then 0
    else (if outcomes[0].fetch.Stale? && !Brought(outcomes[0].fetch) then 1 else 0) + StaleFailures(outcomes[1..])
  }

  lemma {:induction false} AttemptsSplit(outcomes: seq<Outcome>)
    ensures Attempts(outcomes) == StaleSuccesses(outcomes) + StaleFailures(outcomes) + UnknownAttempts(outcomes)
  {
    if outcomes != [] {
      AttemptsSplit(outcomes[1..]);
    }
  }

  lemma {:induction false} SuccessesSplit(outcomes: seq<Outcome>)
    ensures Successes(outcomes) <= StaleSuccesses(outcomes) + UnknownAttempts(outcomes)
  {
    if outcomes != [] {
      SuccessesSplit(outcomes[1..]);
    }
  }

  /** From any cache, over any run of calls that start in [from, to], whatever the provider
      answers: fetches other than the failed ones on a stale cache number at most
      d/ttl + d/30s + 2, and so do the successful ones. */
  lemma FetchesAreBounded(c: Cache, calls: seq<Call>, from: Time, to: Time, ttl: int, usable: Jwk -> bool)
    requires ttl > 0 && from <= to && Past(c, from) && Timed(calls, from, to)
    ensures var outcomes := Play(c, calls, ttl, usable);
            var bound := (to - from) / ttl + (to - from) / COOLDOWN + 2;
            && Attempts(outcomes) <= bound + StaleFailures(outcomes)
            && Successes(outcomes) <= bound
  {
    var outcomes := Play(c, calls, ttl, usable);
    StaleSuccessesFit(c, calls, from, to, ttl, usable);
    UnknownAttemptsFit(c, calls, from, to, ttl, usable);
    FewerFit(from, NextStale(c, from, ttl), to, ttl);
    FewerFit(from, NextUnknown(c, from), to, COOLDOWN);
    SuccessesSplit(outcomes);
    AttemptsSplit(outcomes);
  }

  /** With a provider that always answers no fetch fails, so the bound is on all of them. */
  lemma {:induction false} AnsweredFetchesSucceed(c: Cache, calls: seq<Call>, ttl: int, usable: Jwk -> bool)
    requires forall i :: 0 <= i < |calls| ==> calls[i].answer.Some?
    ensures StaleFailures(Play(c, calls, ttl, usable)) == 0
    decreases |calls|
  {
    if calls != [] {
      var o := Lookup(c, calls[0], ttl, usable);
      AnsweredFetchesSucceed(o.cache, calls[1..], ttl, usable);
      assert Play(c, calls, ttl, usable)[1..] == Play(o.cache, calls[1..], ttl, usable);
    }
  }

  /** While the cache is stale and the provider fails, every call asks: no bound holds. */
  lemma {:induction false} FailuresAreUnbounded(c: Cache, calls: seq<Call>, ttl: int, usable: Jwk -> bool)
    requires forall i :: 0 <= i < |calls| ==> calls[i].answer.None? && !Fresh(c, calls[i].now, ttl)
    ensures Attempts(Play(c, calls, ttl, usable)) == StaleFailures(Play(c, calls, ttl, usable)) == |calls|
    decreases |calls|
  {
    if calls != [] {
      FailuresAreUnbounded(c, calls[1..], ttl, usable);
      assert Play(c, calls, ttl, usable)[1..] == Play(c, calls[1..], ttl, usable);
    }
  }
}
