/**
  The time-limited caches of the crypto status and of the setup state.

  Both caches run the same protocol: `now` is read before the request leaves, and the
  value and that `now` are stored together once the reply is in.  Requests overlap
  freely, the cached value can be dropped at any moment, and the server can change its
  answer at any moment.
 */
module StatusCache {
  import opened Basics

  datatype Cache<+V> = Cache(value: Option<V>, fetchedAt: int)

  /** How long a value is served from the cache, and what a request that failed with an error is read as. */
  datatype Policy<+V> = Policy(ttl: int, fallback: string -> V)

  /** What came of a request: the status in the reply, or the text of the error. */
  datatype Result<+V> = Ok(value: V) | Err(error: string)

  function Lookup<V>(c: Cache<V>, force: bool, now: int, ttl: int): Option<V> {
    if !force && c.value.Some? && now - c.fetchedAt < ttl then c.value else None
  }

  function StatusOf<V>(p: Policy<V>, reply: Result<V>): V {
    if reply.Ok? then reply.value else p.fallback(reply.error)
  }

  function Store<V>(p: Policy<V>, startedAt: int, reply: Result<V>): Cache<V> {
    Cache(Some(StatusOf(p, reply)), startedAt)
  }

  /** Dropping the setup state also clears its time stamp; dropping the crypto status does not. */
  function Drop<V>(c: Cache<V>, resetTime: bool): Cache<V> {
    Cache(None, if resetTime then 0 else c.fetchedAt)
  }

  /** The module variables `_cryptoStatus`/`_setupState` with their time stamps. */
  class StatusVariables<V> {
    var value: Option<V>
    var fetchedAt: int
    const policy: Policy<V>

    ghost function View(): Cache<V>
      reads this
    {
      Cache(value, fetchedAt)
    }

    constructor (policy: Policy<V>)
      ensures View() == Cache(None, 0) && this.policy == policy
    {
      this.policy := policy;
      value := None;
      fetchedAt := 0;
    }

    /** The part of a fetch before its `await`: a hit ends the fetch. */
    method Begin(force: bool, now: int) returns (hit: Option<V>)
      ensures hit == Lookup(View(), force, now, policy.ttl)
    {
      if !force && value.Some? && now - fetchedAt < policy.ttl {
        return value;
      }
      hit := None;
    }

    /** The part of a fetch after its `await`. */
    method Finish(startedAt: int, reply: Result<V>) returns (status: V)
      modifies this
      ensures View() == Store(policy, startedAt, reply)
      ensures value == Some(status)
    {
      if reply.Ok? {
        value := Some(reply.value);
      } else {
        value := Some(policy.fallback(reply.error));
      }
      fetchedAt := startedAt;
      status := value.value;
    }

    method Invalidate(resetTime: bool)
      modifies this
      ensures View() == Drop(old(View()), resetTime)
    {
      value := None;
      if resetTime {
        fetchedAt := 0;
      }
    }
  }

  // ---------------------------------------------------------------- runs

  datatype Call<+V> = Call(startedAt: int, reply: Option<Result<V>>)

  datatype World<+V> = World(clock: int, server: V, cache: Cache<V>, calls: map<nat, Call<V>>)

  datatype Event<+V> =
    | Tick(ms: nat)
    | ServerChanges(status: V)
    | Begin(id: nat, force: bool)
    | Answer(id: nat)
    | Fail(id: nat, error: string)
    | Deliver(id: nat)
    | Invalidate(resetTime: bool)

  ghost predicate Initial<V>(w: World<V>) {
    w.cache == Cache(None, 0) && w.calls == map[]
  }

  predicate IsWaiting<V>(w: World<V>, id: nat) {
    id in w.calls && w.calls[id].reply.None?
  }

  /** One atomic step; an event that is not enabled changes nothing. */
  function Next<V>(p: Policy<V>, w: World<V>, e: Event<V>): World<V> {
    match e
    case Tick(ms) => w.(clock := w.clock + ms)
    case ServerChanges(status) => w.(server := status)
    case Begin(id, force) =>
      if id in w.calls || Lookup(w.cache, force, w.clock, p.ttl).Some? then w
      else w.(calls := w.calls[id := Call(w.clock, None)])
    case Answer(id) =>
      if IsWaiting(w, id) then w.(calls := w.calls[id := w.calls[id].(reply := Some(Ok(w.server)))]) else w
    case Fail(id, error) =>
      if IsWaiting(w, id) then w.(calls := w.calls[id := w.calls[id].(reply := Some(Err(error)))]) else w
    case Deliver(id) =>
      if id !in w.calls || w.calls[id].reply.None? then w
      else w.(cache := Store(p, w.calls[id].startedAt, w.calls[id].reply.value), calls := w.calls - {id})
    case Invalidate(resetTime) => w.(cache := Drop(w.cache, resetTime))
  }

  function Run<V>(p: Policy<V>, w: World<V>, es: seq<Event<V>>): World<V> {
    if es == [] then w else Next(p, Run(p, w, es[..|es| - 1]), es[|es| - 1])
  }

  /** Some request was reported as failed by the `i`-th event of the run, with this error. */
  ghost predicate FailsAt<V>(p: Policy<V>, w: World<V>, es: seq<Event<V>>, i: nat, error: string)
    requires i <= |es|
  {
    i < |es| && es[i].Fail? && es[i].error == error && IsWaiting(Run(p, w, es[..i]), es[i].id)
  }

  /** At moment `i` of the run the server really had status `v`, or `v` is how the failure reads that came then. */
  ghost predicate Justifies<V>(p: Policy<V>, w: World<V>, es: seq<Event<V>>, v: V, i: nat)
    requires i <= |es|
  {
    || Run(p, w, es[..i]).server == v
    || exists error: string :: FailsAt(p, w, es, i, error) && v == p.fallback(error)
  }

  ghost predicate JustifiedSince<V>(p: Policy<V>, w: World<V>, es: seq<Event<V>>, v: V, since: int) {
    exists i: nat :: i <= |es| && since <= Run(p, w, es[..i]).clock && Justifies(p, w, es, v, i)
  }

  lemma JustifiesExtends<V>(p: Policy<V>, w: World<V>, es: seq<Event<V>>, v: V, i: nat)
    requires es != [] && i < |es| && Justifies(p, w, es[..|es| - 1], v, i)
    ensures Justifies(p, w, es, v, i)
  {
    var before := es[..|es| - 1];
    assert before[..i] == es[..i];
    if error: string :| FailsAt(p, w, before, i, error) && v == p.fallback(error) {
      assert FailsAt(p, w, es, i, error);
    }
  }

  lemma JustifiedExtends<V>(p: Policy<V>, w: World<V>, es: seq<Event<V>>, v: V, since: int)
    requires es != []
    requires JustifiedSince(p, w, es[..|es| - 1], v, since)
    ensures JustifiedSince(p, w, es, v, since)
  {
    var before := es[..|es| - 1];
    var i: nat :| i <= |before| && since <= Run(p, w, before[..i]).clock && Justifies(p, w, before, v, i);
    assert before[..i] == es[..i];
    JustifiesExtends(p, w, es, v, i);
  }

  ghost predicate CallJustified<V>(p: Policy<V>, w: World<V>, es: seq<Event<V>>, call: Call<V>) {
    && call.startedAt <= Run(p, w, es).clock
    && (call.reply.Some? ==> JustifiedSince(p, w, es, StatusOf(p, call.reply.value), call.startedAt))
  }

  /** What every reachable world keeps: stored values and arrived replies are justified. */
  ghost predicate Justified<V>(p: Policy<V>, w: World<V>, es: seq<Event<V>>) {
    var now := Run(p, w, es);
    && (forall id :: id in now.calls ==> CallJustified(p, w, es, now.calls[id]))
    && (now.cache.value.Some? ==> JustifiedSince(p, w, es, now.cache.value.value, now.cache.fetchedAt))
  }

  /** A reply that arrives with the last event is justified by that event. */
  lemma ArrivalIsJustified<V>(p: Policy<V>, w: World<V>, es: seq<Event<V>>, since: int)
    requires es != [] && (es[|es| - 1].Answer? || es[|es| - 1].Fail?)
    requires var was := Run(p, w, es[..|es| - 1]); IsWaiting(was, es[|es| - 1].id) && since <= was.clock
    ensures var was, e := Run(p, w, es[..|es| - 1]), es[|es| - 1];
      JustifiedSince(p, w, es, StatusOf(p, if e.Answer? then Ok(was.server) else Err(e.error)), since)
  {
    var before, e := es[..|es| - 1], es[|es| - 1];
    assert es[..|before|] == before;
    if e.Fail? {
      assert FailsAt(p, w, es, |before|, e.error);
      assert Justifies(p, w, es, p.fallback(e.error), |before|);
    } else {
      assert Justifies(p, w, es, Run(p, w, before).server, |before|);
    }
  }

  /** Where a call found after a step comes from. */
  lemma CallOrigin<V>(p: Policy<V>, w: World<V>, e: Event<V>, id: nat)
    requires id in Next(p, w, e).calls
    ensures w.clock <= Next(p, w, e).clock
    ensures var call := Next(p, w, e).calls[id];
      || call == Call(w.clock, None)
      || (id in w.calls && w.calls[id] == call)
      || (IsWaiting(w, id) && (e.Answer? || e.Fail?) && e.id == id
          && call == Call(w.calls[id].startedAt, Some(if e.Answer? then Ok(w.server) else Err(e.error))))
  {
  }

  lemma CallStep<V>(p: Policy<V>, w: World<V>, es: seq<Event<V>>, id: nat)
    requires es != [] && Justified(p, w, es[..|es| - 1]) && id in Run(p, w, es).calls
    ensures CallJustified(p, w, es, Run(p, w, es).calls[id])
  {
    var was, e, call := Run(p, w, es[..|es| - 1]), es[|es| - 1], Run(p, w, es).calls[id];
    CallOrigin(p, was, e, id);
    if call.reply.Some? {
      if id in was.calls && was.calls[id] == call {
        JustifiedExtends(p, w, es, StatusOf(p, call.reply.value), call.startedAt);
      } else {
        assert CallJustified(p, w, es[..|es| - 1], was.calls[id]);
        ArrivalIsJustified(p, w, es, call.startedAt);
      }
    }
  }

  lemma {:induction false} RunsAreJustified<V>(p: Policy<V>, w: World<V>, es: seq<Event<V>>)
    requires Initial(w)
    ensures Justified(p, w, es)
  {
    if es != [] {
      RunsAreJustified(p, w, es[..|es| - 1]);
      var now := Run(p, w, es);
      forall id | id in now.calls
        ensures CallJustified(p, w, es, now.calls[id])
      {
        CallStep(p, w, es, id);
      }
      if now.cache.value.Some? {
        JustifiedExtends(p, w, es, now.cache.value.value, now.cache.fetchedAt);
      }
    }
  }

  /**
    Under every interleaving, a status served from the cache was the server's own status,
    or a failure that reads as the fallback, at a moment less than the limit ago.
   */
  lemma ServedStatusIsFresh<V>(p: Policy<V>, w: World<V>, es: seq<Event<V>>, force: bool) returns (i: nat)
    requires Initial(w)
    requires Lookup(Run(p, w, es).cache, force, Run(p, w, es).clock, p.ttl).Some?
    ensures i <= |es|
    ensures Run(p, w, es).clock - Run(p, w, es[..i]).clock < p.ttl
    ensures Justifies(p, w, es, Run(p, w, es).cache.value.value, i)
  {
    RunsAreJustified(p, w, es);
    var c := Run(p, w, es).cache;
    i :| i <= |es| && c.fetchedAt <= Run(p, w, es[..i]).clock && Justifies(p, w, es, c.value.value, i);
  }

  // ---------------------------------------------------------------- when the server is asked

  /** A fetch asks the server exactly when it is forced, or nothing is stored, or what is stored is too old. */
  lemma AsksExactlyWhen<V>(p: Policy<V>, w: World<V>, id: nat, force: bool)
    requires id !in w.calls
    ensures var w', age := Next(p, w, Begin(id, force)), w.clock - w.cache.fetchedAt;
      && (id in w'.calls <==> force || w.cache.value.None? || age >= p.ttl)
      && (id in w'.calls ==> w'.calls[id] == Call(w.clock, None))
      && w'.cache == w.cache && w'.calls - {id} == w.calls
  {
  }

  /** A reply is stored with the time at which its request began, and not with the time of its arrival. */
  lemma DeliveryStores<V>(p: Policy<V>, w: World<V>, id: nat)
    requires id in w.calls && w.calls[id].reply.Some?
    ensures var w' := Next(p, w, Deliver(id));
      && id !in w'.calls && w'.cache.fetchedAt == w.calls[id].startedAt
      && w'.cache.value == Some(match w.calls[id].reply.value
                                case Ok(status) => status
                                case Err(error) => p.fallback(error))
  {
  }

  /** From an invalidation on, until a reply is delivered, nothing is stored. */
  lemma {:induction false} StaysInvalid<V>(p: Policy<V>, w: World<V>, es: seq<Event<V>>, resetTime: bool)
    requires forall e :: e in es ==> !e.Deliver?
    ensures Run(p, Next(p, w, Invalidate(resetTime)), es).cache.value == None
  {
    if es != [] {
      StaysInvalid(p, w, es[..|es| - 1], resetTime);
      assert es[|es| - 1] in es;
    }
  }

  /** So every fetch asks the server then. */
  lemma InvalidationIsHeeded<V>(p: Policy<V>, w: World<V>, es: seq<Event<V>>, resetTime: bool, id: nat, force: bool)
    requires forall e :: e in es ==> !e.Deliver?
    requires id !in Run(p, Next(p, w, Invalidate(resetTime)), es).calls
    ensures id in Next(p, Run(p, Next(p, w, Invalidate(resetTime)), es), Begin(id, force)).calls
  {
    StaysInvalid(p, w, es, resetTime);
  }

  // ---------------------------------------------------------------- the two caches

  const CRYPTO_CACHE_MS := 2000
  const SETUP_CACHE_MS := 5000

  /** `error` is empty in a status that the server sent. */
  datatype CryptoStatus = CryptoStatus(locked: bool, passwordProtected: bool, migration: string, scopes: seq<string>,
                                       bootstrapMode: string, retryAfter: int, error: string)
  datatype SetupState = SetupState(identity: bool, wallet: bool, agentpmt: bool, llm: bool, complete: bool)

  function CryptoPolicy(): Policy<CryptoStatus> {
    Policy(CRYPTO_CACHE_MS, error => CryptoStatus(false, false, "unknown", [], "required", 0, error))
  }

  /** A failure reads as nothing being set up. */
  function SetupPolicy(): Policy<SetupState> {
    Policy(SETUP_CACHE_MS, error => SetupState(false, false, false, false, false))
  }

  /** A crypto status with an error that comes from the cache is a failure with that error, less than two seconds old. */
  lemma ServedErrorIsFresh(w: World<CryptoStatus>, es: seq<Event<CryptoStatus>>, force: bool) returns (i: nat)
    requires Initial(w)
    requires Lookup(Run(CryptoPolicy(), w, es).cache, force, Run(CryptoPolicy(), w, es).clock, CRYPTO_CACHE_MS).Some?
    ensures i <= |es| && Run(CryptoPolicy(), w, es).clock - Run(CryptoPolicy(), w, es[..i]).clock < 2000
    ensures var served := Run(CryptoPolicy(), w, es).cache.value.value;
      Run(CryptoPolicy(), w, es[..i]).server == served || FailsAt(CryptoPolicy(), w, es, i, served.error)
  {
    i := ServedStatusIsFresh(CryptoPolicy(), w, es, force);
  }

  /** A setup that the cache reports as complete was complete on the server less than five seconds ago. */
  lemma ServedCompletionIsFresh(w: World<SetupState>, es: seq<Event<SetupState>>, force: bool) returns (i: nat)
    requires Initial(w)
    requires Lookup(Run(SetupPolicy(), w, es).cache, force, Run(SetupPolicy(), w, es).clock, SETUP_CACHE_MS).Some?
    requires Run(SetupPolicy(), w, es).cache.value.value.complete
    ensures i <= |es| && Run(SetupPolicy(), w, es).clock - Run(SetupPolicy(), w, es[..i]).clock < 5000
    ensures Run(SetupPolicy(), w, es[..i]).server.complete
  {
    i := ServedStatusIsFresh(SetupPolicy(), w, es, force);
  }

  /** A failure is read as an unlocked store that still has to be set up, and as nothing being set up. */
  lemma FailuresRead(error: string)
    ensures var status := StatusOf(CryptoPolicy(), Err(error));
      && !status.locked && !status.passwordProtected && status.migration == "unknown" && status.scopes == []
      && status.bootstrapMode == "required" && status.retryAfter == 0 && status.error == error
    ensures StatusOf(SetupPolicy(), Err(error)) == SetupState(false, false, false, false, false)
  {
  }
}
