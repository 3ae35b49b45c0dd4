/**
  The genesis gate: the cached "is genesis complete" answer, the visual ceremony with its
  stages, and the page router that must not open a page before genesis is complete.

  `Client` holds the dashboard's variables and what the ceremony overlay shows.  Each
  function on `Client` is one stretch of code between two `await`s.  `World` adds the
  clock, the server and every suspended async function.
 */
module GenesisGate {
  import opened Basics

  datatype Stage = Hw | Curby | Beacons | Combine | Derive | Lattice | Destroy | Anchor | Verify | Complete
  datatype Mark = Future | Active | Done | Broken

  /** The stages shown only for effect, in the order in which the ceremony walks through them. */
  const STUBS: seq<Stage> := [Derive, Lattice, Destroy, Anchor, Verify]

  const ALL_FUTURE: map<Stage, Mark> :=
    map[Hw := Future, Curby := Future, Beacons := Future, Combine := Future, Derive := Future,
        Lattice := Future, Destroy := Future, Anchor := Future, Verify := Future, Complete := Future]

  const GENESIS_CACHE_MS := 3000

  /**
    A reply to a harvest request.  `remote` tells the two error codes that blame the remote
    sources; `Thrown` is a reply that raises before the sources are read.
   */
  datatype Harvest =
    | Success(curby: bool, beacons: bool)
    | Refused(curby: bool, beacons: bool, remote: bool)
    | Thrown(remote: bool)

  datatype Client = Client(complete: Option<bool>, fetchedAt: int, running: bool,
                           stages: map<Stage, Mark>, errorPanel: bool)

  /** Marking a stage whose element does not exist does nothing. */
  function SetStage(stages: map<Stage, Mark>, s: Stage, m: Mark): map<Stage, Mark> {
    if s in stages then stages[s := m] else stages
  }

  function CachedStatus(c: Client, force: bool, now: int): Option<bool> {
    if !force && c.complete.Some? && now - c.fetchedAt < GENESIS_CACHE_MS then c.complete else None
  }

  /** A failed status request reads as "not complete". */
  function FinishStatus(c: Client, startedAt: int, reply: Option<bool>): Client {
    c.(complete := Some(if reply.Some? then reply.value else false), fetchedAt := startedAt)
  }

  function Confirm(c: Client, now: int): Client {
    c.(complete := Some(true), fetchedAt := now)
  }

  function StartCeremony(c: Client): Client {
    if c.running then c
    else c.(running := true, stages := SetStage(ALL_FUTURE, Hw, Active), errorPanel := false)
  }

  function HardwareDetected(c: Client): Client {
    c.(stages := SetStage(SetStage(c.stages, Hw, Done), Curby, Active))
  }

  function CeremonyFails(c: Client, remote: bool): Client {
    var stages :=
      if remote then SetStage(SetStage(SetStage(c.stages, Curby, Broken), Beacons, Broken), Combine, Broken)
      else c.stages;
    c.(stages := stages, errorPanel := true, running := false)
  }

  function SourcesShown(c: Client, curby: bool, beacons: bool): Client {
    c.(stages := SetStage(SetStage(c.stages, Curby, if curby then Done else Broken),
                          Beacons, if beacons then Done else Broken))
  }

  function Harvested(c: Client, h: Harvest): Client {
    match h
    case Thrown(remote) => CeremonyFails(c, remote)
    case Refused(curby, beacons, remote) =>
      var shown := SourcesShown(c, curby, beacons);
      CeremonyFails(shown.(stages := SetStage(shown.stages, Combine, Broken)), remote)
    case Success(curby, beacons) =>
      var shown := SourcesShown(c, curby, beacons);
      shown.(stages := SetStage(SetStage(shown.stages, Combine, Done), STUBS[0], Active))
  }

  function StubShown(c: Client, k: nat, now: int): Client
    requires k < |STUBS|
  {
    var stages := SetStage(c.stages, STUBS[k], Done);
    if k + 1 < |STUBS| then
      c.(stages := SetStage(stages, STUBS[k + 1], Active))
    else
      Confirm(c.(stages := SetStage(stages, Complete, Done), running := false), now)
  }

  function Retry(c: Client): Client {
    StartCeremony(c.(running := false, complete := None, fetchedAt := 0))
  }

  /** The module variables of the gate together with the overlay; one method per stretch of code. */
  class GateVariables {
    var complete: Option<bool>
    var fetchedAt: int
    var running: bool
    var stages: map<Stage, Mark>
    var errorPanel: bool

    ghost function View(): Client
      reads this
    {
      Client(complete, fetchedAt, running, stages, errorPanel)
    }

    constructor ()
      ensures View() == Client(None, 0, false, map[], false)
    {
      complete, fetchedAt, running, stages, errorPanel := None, 0, false, map[], false;
    }

    method Mark(s: Stage, m: Mark)
      modifies this`stages
      ensures stages == SetStage(old(stages), s, m)
    {
      if s in stages {
        stages := stages[s := m];
      }
    }

    method BeginStatus(force: bool, now: int) returns (hit: Option<bool>)
      ensures hit == CachedStatus(View(), force, now)
    {
      if !force && complete.Some? && now - fetchedAt < GENESIS_CACHE_MS {
        return complete;
      }
      hit := None;
    }

    method EndStatus(startedAt: int, reply: Option<bool>) returns (ok: bool)
      modifies this
      ensures View() == FinishStatus(old(View()), startedAt, reply)
      ensures complete == Some(ok)
    {
      ok := false;
      if reply.Some? {
        ok := reply.value;
      }
      complete := Some(ok);
      fetchedAt := startedAt;
    }

    method Confirmed(now: int)
      modifies this
      ensures View() == Confirm(old(View()), now)
    {
      complete := Some(true);
      fetchedAt := now;
    }

    method ShowCeremony() returns (started: bool)
      modifies this
      ensures View() == StartCeremony(old(View()))
      ensures started == !old(running)
    {
      if running {
        return false;
      }
      running := true;
      stages := ALL_FUTURE;
      errorPanel := false;
      Mark(Hw, Active);
      started := true;
    }

    method AfterHardware()
      modifies this
      ensures View() == HardwareDetected(old(View()))
    {
      Mark(Hw, Done);
      Mark(Curby, Active);
    }

    method AfterHarvest(h: Harvest) returns (continues: bool)
      modifies this
      ensures View() == Harvested(old(View()), h)
      ensures continues == h.Success?
    {
      continues := false;
      if !h.Thrown? {
        Mark(Curby, if h.curby then Done else Broken);
        Mark(Beacons, if h.beacons then Done else Broken);
        if h.Success? {
          Mark(Combine, Done);
          Mark(STUBS[0], Active);
          return true;
        }
        Mark(Combine, Broken);
      }
      if h.remote {
        Mark(Curby, Broken);
        Mark(Beacons, Broken);
        Mark(Combine, Broken);
      }
      errorPanel := true;
      running := false;
    }

    method AfterStub(k: nat, now: int) returns (finished: bool)
      requires k < |STUBS|
      modifies this
      ensures View() == StubShown(old(View()), k, now)
      ensures finished == (k + 1 == |STUBS|)
    {
      Mark(STUBS[k], Done);
      finished := k + 1 == |STUBS|;
      if !finished {
        Mark(STUBS[k + 1], Active);
      } else {
        Mark(Complete, Done);
        Confirmed(now);
        running := false;
      }
    }

    method RetryGenesis() returns (started: bool)
      modifies this
      ensures View() == Retry(old(View())) && started
    {
      running := false;
      complete := None;
      fetchedAt := 0;
      started := ShowCeremony();
    }
  }

  // ---------------------------------------------------------------- runs

  datatype CeremonyPoint = HardwareSleep | Harvesting(reply: Reply<Harvest>) | StubSleep(k: nat)

  /** A suspended async function, named by the `await` it sits at. */
  datatype Thread =
    | RouteCrypto
    | RouteStatus(startedAt: int, status: Reply<bool>)
    | RouteResumes(genesisOk: bool)
    | RouteRecovery(reply: Reply<Harvest>)
    | RoutePastGate
    | AutoStatus(status: Reply<bool>)
    | AutoHarvest(reply: Reply<Harvest>)
    | Ceremony(at: CeremonyPoint)
    | CompleteTimer

  datatype World = World(clock: int, server: bool, client: Client, threads: map<nat, Thread>)

  /**
    `ServerReset` takes completion back.  The server refuses a reset once genesis is complete, so
    runs without one are the program's own; the others show what does not depend on that.
    `Lost` is a request that fails in transit, `reached` telling whether the server still
    carried it out.  `Resume` runs the stretch after an `await` that is over; `proceed` is
    the outcome of the crypto check for a route.  `Dispatch` calls the page handler.
   */
  datatype Event =
    | Tick(ms: nat)
    | ServerReset
    | RouteBegins(id: nat)
    | AutoBegins(id: nat)
    | RetryClick(id: nat)
    | Answer(id: nat, harvest: Harvest)
    | Lost(id: nat, reached: bool)
    | Resume(id: nat, proceed: bool, remote: bool)
    | Dispatch(id: nat)

  ghost predicate Initial(w: World) {
    w.client == Client(None, 0, false, map[], false) && w.threads == map[]
  }

  predicate WaitsForStatus(t: Thread) {
    (t.RouteStatus? || t.AutoStatus?) && t.status.Waiting?
  }

  predicate WaitsForHarvest(t: Thread) {
    || ((t.RouteRecovery? || t.AutoHarvest?) && t.reply.Waiting?)
    || (t.Ceremony? && t.at.Harvesting? && t.at.reply.Waiting?)
  }

  function WithStatus(t: Thread, r: Reply<bool>): Thread
    requires WaitsForStatus(t)
  {
    if t.RouteStatus? then t.(status := r) else AutoStatus(r)
  }

  function WithHarvest(t: Thread, r: Reply<Harvest>): Thread
    requires WaitsForHarvest(t)
  {
    if t.RouteRecovery? then RouteRecovery(r) else if t.AutoHarvest? then AutoHarvest(r) else Ceremony(Harvesting(r))
  }

  /** The outcome of one stretch of code: the variables, and where the function is suspended next. */
  datatype Outcome = Outcome(client: Client, next: Option<Thread>)

  predicate Succeeded(r: Reply<Harvest>) {
    r.Answered? && r.value.Success?
  }

  function RouteAfterCrypto(c: Client, now: int, proceed: bool): Outcome {
    if !proceed then Outcome(c, None)
    else
      var hit := CachedStatus(c, false, now);
      Outcome(c, Some(if hit.Some? then RouteResumes(hit.value) else RouteStatus(now, Waiting)))
  }

  function RouteAfterStatus(c: Client, startedAt: int, reply: Reply<bool>): Outcome
    requires !reply.Waiting?
  {
    var c' := FinishStatus(c, startedAt, if reply.Answered? then Some(reply.value) else None);
    Outcome(c', Some(RouteResumes(c'.complete.value)))
  }

  /** Failed recovery opens the ceremony, unless one is already running. */
  function RouteAfterRecovery(c: Client, now: int, reply: Reply<Harvest>): Outcome {
    if Succeeded(reply) then Outcome(Confirm(c, now), Some(RoutePastGate))
    else Outcome(StartCeremony(c), if c.running then None else Some(Ceremony(HardwareSleep)))
  }

  function CeremonyAdvances(c: Client, now: int, at: CeremonyPoint, remote: bool): Outcome
    requires at.Harvesting? ==> !at.reply.Waiting?
    requires at.StubSleep? ==> at.k < |STUBS|
  {
    match at
    case HardwareSleep => Outcome(HardwareDetected(c), Some(Ceremony(Harvesting(Waiting))))
    case Harvesting(reply) =>
      Outcome(Harvested(c, if reply.Answered? then reply.value else Thrown(remote)),
              if Succeeded(reply) then Some(Ceremony(StubSleep(0))) else None)
    case StubSleep(k) =>
      Outcome(StubShown(c, k, now),
              Some(if k + 1 < |STUBS| then Ceremony(StubSleep(k + 1)) else CompleteTimer))
  }

  /** The `await` a thread sits at is over. */
  predicate Ready(t: Thread) {
    match t
    case RouteStatus(_, reply) => !reply.Waiting?
    case RouteRecovery(reply) => !reply.Waiting?
    case RoutePastGate => false
    case AutoStatus(reply) => !reply.Waiting?
    case AutoHarvest(reply) => !reply.Waiting?
    case Ceremony(at) => (at.Harvesting? ==> !at.reply.Waiting?) && (at.StubSleep? ==> at.k < |STUBS|)
    case _ => true
  }

  function Advance(c: Client, now: int, t: Thread, proceed: bool, remote: bool): Outcome
    requires Ready(t)
  {
    match t
    case RouteCrypto => RouteAfterCrypto(c, now, proceed)
    case RouteStatus(startedAt, reply) => RouteAfterStatus(c, startedAt, reply)
    case RouteResumes(genesisOk) => Outcome(c, Some(if genesisOk then RoutePastGate else RouteRecovery(Waiting)))
    case RouteRecovery(reply) => RouteAfterRecovery(c, now, reply)
    case AutoStatus(reply) =>
      if reply.Failed? then Outcome(c, None)
      else if reply.value then Outcome(Confirm(c, now), None)
      else Outcome(c, Some(AutoHarvest(Waiting)))
    case AutoHarvest(reply) => Outcome(if Succeeded(reply) then Confirm(c, now) else c, None)
    case Ceremony(at) => CeremonyAdvances(c, now, at, remote)
    case CompleteTimer => Outcome(Confirm(c, now), Some(RouteCrypto))
  }

  function Settle(w: World, id: nat, o: Outcome): World {
    w.(client := o.client,
       threads := if o.next.Some? then w.threads[id := o.next.value] else w.threads - {id})
  }

  function Spawn(w: World, id: nat, t: Thread): World {
    if id in w.threads then w else w.(threads := w.threads[id := t])
  }

  /** One atomic step; an event that is not enabled changes nothing. */
  function Next(w: World, e: Event): World {
    match e
    case Tick(ms) => w.(clock := w.clock + ms)
    case ServerReset => w.(server := false)
    case RouteBegins(id) => Spawn(w, id, RouteCrypto)
    case AutoBegins(id) => Spawn(w, id, AutoStatus(Waiting))
    case RetryClick(id) =>
      if w.client.errorPanel && id !in w.threads then
        w.(client := Retry(w.client), threads := w.threads[id := Ceremony(HardwareSleep)])
      else w
    case Answer(id, harvest) =>
      if id !in w.threads then w
      else if WaitsForStatus(w.threads[id]) then
        w.(threads := w.threads[id := WithStatus(w.threads[id], Answered(w.server))])
      else if WaitsForHarvest(w.threads[id]) then
        w.(server := w.server || harvest.Success?,
           threads := w.threads[id := WithHarvest(w.threads[id], Answered(harvest))])
      else w
    case Lost(id, reached) =>
      if id !in w.threads then w
      else if WaitsForStatus(w.threads[id]) then
        w.(threads := w.threads[id := WithStatus(w.threads[id], Failed)])
      else if WaitsForHarvest(w.threads[id]) then
        w.(server := w.server || reached, threads := w.threads[id := WithHarvest(w.threads[id], Failed)])
      else w
    case Resume(id, proceed, remote) =>
      if id in w.threads && Ready(w.threads[id]) then
        Settle(w, id, Advance(w.client, w.clock, w.threads[id], proceed, remote))
      else w
    case Dispatch(id) => if DispatchEnabled(w, id) then w.(threads := w.threads - {id}) else w
  }

  /** The route sitting at `id` is about to call the page handler. */
  predicate DispatchEnabled(w: World, id: nat) {
    id in w.threads && w.threads[id].RoutePastGate?
  }

  function Run(w: World, es: seq<Event>): World {
    if es == [] then w else Next(Run(w, es[..|es| - 1]), es[|es| - 1])
  }

  // ---------------------------------------------------------------- the gate

  ghost predicate EverComplete(w: World, es: seq<Event>) {
    exists i: nat :: i <= |es| && Run(w, es[..i]).server
  }

  lemma EverCompleteExtends(w: World, es: seq<Event>)
    requires es != []
    ensures EverComplete(w, es[..|es| - 1]) ==> EverComplete(w, es)
    ensures Run(w, es).server ==> EverComplete(w, es)
  {
    var before := es[..|es| - 1];
    if EverComplete(w, before) {
      var i: nat :| i <= |before| && Run(w, before[..i]).server;
      assert before[..i] == es[..i];
    }
    assert es[..|es|] == es;
  }

  /** A suspended function that holds, or was let through by, a "complete" answer. */
  predicate Vouches(t: Thread) {
    match t
    case RouteStatus(_, reply) => reply == Answered(true)
    case RouteResumes(genesisOk) => genesisOk
    case RouteRecovery(reply) => Succeeded(reply)
    case RoutePastGate => true
    case AutoStatus(reply) => reply == Answered(true)
    case AutoHarvest(reply) => Succeeded(reply)
    case Ceremony(at) => at.StubSleep? || (at.Harvesting? && Succeeded(at.reply))
    case CompleteTimer => true
    case RouteCrypto => false
  }

  predicate ClaimsComplete(w: World) {
    || w.client.complete == Some(true)
    || IsDone(w.client, Complete)
    || exists id :: id in w.threads && Vouches(w.threads[id])
  }

  lemma AdvanceVouches(c: Client, now: int, t: Thread, proceed: bool, remote: bool)
    requires Ready(t)
    ensures var o := Advance(c, now, t, proceed, remote);
      o.client.complete == Some(true) || (o.next.Some? && Vouches(o.next.value)) ==>
      c.complete == Some(true) || Vouches(t)
  {
  }

  lemma AdvanceEarns(c: Client, now: int, t: Thread, proceed: bool, remote: bool)
    requires Ready(t) && IsDone(Advance(c, now, t, proceed, remote).client, Complete)
    ensures IsDone(c, Complete) || Vouches(t)
  {
    if !t.Ceremony? {
      AdvanceOutside(c, now, t, proceed, remote);
    } else if t.at.Harvesting? {
      HarvestedMarks(c, if t.at.reply.Answered? then t.at.reply.value else Thrown(remote));
    }
  }

  /** A claim of completion that is new in this step comes from the server being complete. */
  lemma ClaimsCompleteStep(w: World, e: Event)
    ensures ClaimsComplete(Next(w, e)) ==> ClaimsComplete(w) || Next(w, e).server
  {
    if e.Resume? && e.id in w.threads && Ready(w.threads[e.id]) {
      AdvanceVouches(w.client, w.clock, w.threads[e.id], e.proceed, e.remote);
      if IsDone(Next(w, e).client, Complete) {
        AdvanceEarns(w.client, w.clock, w.threads[e.id], e.proceed, e.remote);
      }
    }
  }

  lemma {:induction false} CompleteOnlyAfterConfirmation(w: World, es: seq<Event>)
    requires Initial(w)
    ensures ClaimsComplete(Run(w, es)) ==> EverComplete(w, es)
  {
    if es != [] {
      CompleteOnlyAfterConfirmation(w, es[..|es| - 1]);
      ClaimsCompleteStep(Run(w, es[..|es| - 1]), es[|es| - 1]);
      EverCompleteExtends(w, es);
    }
  }

  predicate NoReset(es: seq<Event>) {
    forall e :: e in es ==> !e.ServerReset?
  }

  lemma {:induction false} CompletionIsKept(w: World, es: seq<Event>)
    requires NoReset(es) && EverComplete(w, es)
    ensures Run(w, es).server
  {
    if es == [] {
      return;
    }
    var before := es[..|es| - 1];
    var i: nat :| i <= |es| && Run(w, es[..i]).server;
    if i == |es| {
      assert es[..i] == es;
    } else {
      assert es[..i] == before[..i];
      CompletionIsKept(w, before);
      assert es[|es| - 1] in es;
    }
  }

  /**
    In every run a page handler is called only after the server had completed genesis; and
    as long as nobody resets the server, genesis is complete when the handler is called.
   */
  lemma DispatchOnlyAfterGenesis(w: World, es: seq<Event>, id: nat)
    requires Initial(w)
    requires DispatchEnabled(Run(w, es), id)
    ensures EverComplete(w, es)
    ensures NoReset(es) ==> Run(w, es).server
  {
    CompleteOnlyAfterConfirmation(w, es);
    if NoReset(es) {
      CompletionIsKept(w, es);
    }
  }

  // ---------------------------------------------------------------- the cached "not complete"

  /** At moment `i` the server was not complete, or a status request was lost. */
  ghost predicate DeniedAt(w: World, es: seq<Event>, i: nat)
    requires i <= |es|
  {
    var at := Run(w, es[..i]);
    !at.server || (i < |es| && es[i].Lost? && es[i].id in at.threads && WaitsForStatus(at.threads[es[i].id]))
  }

  ghost predicate DeniedSince(w: World, es: seq<Event>, since: int) {
    exists i: nat :: i <= |es| && since <= Run(w, es[..i]).clock && DeniedAt(w, es, i)
  }

  lemma DeniedExtends(w: World, es: seq<Event>, since: int)
    requires es != [] && DeniedSince(w, es[..|es| - 1], since)
    ensures DeniedSince(w, es, since)
  {
    var before := es[..|es| - 1];
    var i: nat :| i <= |before| && since <= Run(w, before[..i]).clock && DeniedAt(w, before, i);
    assert before[..i] == es[..i];
    assert DeniedAt(w, es, i);
  }

  ghost predicate StatusCallHolds(w: World, es: seq<Event>, t: Thread) {
    t.RouteStatus? ==>
      && t.startedAt <= Run(w, es).clock
      && (t.status == Failed || t.status == Answered(false) ==> DeniedSince(w, es, t.startedAt))
  }

  ghost predicate DenialsHold(w: World, es: seq<Event>) {
    var now := Run(w, es);
    && (forall id :: id in now.threads ==> StatusCallHolds(w, es, now.threads[id]))
    && (now.client.complete == Some(false) ==> DeniedSince(w, es, now.client.fetchedAt))
  }

  /** Only a status reply writes "not complete", and it writes its own start time beside it. */
  lemma AdvanceDenies(c: Client, now: int, t: Thread, proceed: bool, remote: bool)
    requires Ready(t)
    ensures var o := Advance(c, now, t, proceed, remote);
      && (o.client.complete == Some(false) ==>
            (c.complete == Some(false) && c.fetchedAt == o.client.fetchedAt)
            || (t.RouteStatus? && t.startedAt == o.client.fetchedAt && (t.status == Failed || t.status == Answered(false))))
      && (o.next.Some? && o.next.value.RouteStatus? ==> o.next.value == RouteStatus(now, Waiting))
  {
  }

  lemma {:induction false} RunsKeepDenials(w: World, es: seq<Event>)
    requires Initial(w)
    ensures DenialsHold(w, es)
  {
    if es == [] {
      return;
    }
    var before, e := es[..|es| - 1], es[|es| - 1];
    RunsKeepDenials(w, before);
    var was, now := Run(w, before), Run(w, es);
    if e.Resume? && e.id in was.threads && Ready(was.threads[e.id]) {
      AdvanceDenies(was.client, was.clock, was.threads[e.id], e.proceed, e.remote);
    }
    if now.client.complete == Some(false) {
      DeniedExtends(w, es, now.client.fetchedAt);
    }
    forall id | id in now.threads && now.threads[id].RouteStatus?
      ensures StatusCallHolds(w, es, now.threads[id])
    {
      StatusCallStep(w, es, id);
    }
  }

  /** Where a status call found after a step comes from. */
  lemma StatusCallOrigin(w: World, e: Event, id: nat)
    requires id in Next(w, e).threads && Next(w, e).threads[id].RouteStatus?
    ensures var t := Next(w, e).threads[id];
      || t == RouteStatus(w.clock, Waiting)
      || (id in w.threads && w.threads[id] == t)
      || (id in w.threads && WaitsForStatus(w.threads[id]) && w.threads[id] == t.(status := Waiting)
          && (t.status == Answered(w.server) || (t.status == Failed && e.Lost? && e.id == id)))
  {
    if e.Resume? && e.id in w.threads && Ready(w.threads[e.id]) {
      AdvanceDenies(w.client, w.clock, w.threads[e.id], e.proceed, e.remote);
    }
  }

  lemma ClockNeverRunsBack(w: World, e: Event)
    ensures w.clock <= Next(w, e).clock
  {
  }

  lemma StatusCallStep(w: World, es: seq<Event>, id: nat)
    requires es != [] && DenialsHold(w, es[..|es| - 1])
    requires id in Run(w, es).threads && Run(w, es).threads[id].RouteStatus?
    ensures StatusCallHolds(w, es, Run(w, es).threads[id])
  {
    var before, e := es[..|es| - 1], es[|es| - 1];
    var was, t := Run(w, before), Run(w, es).threads[id];
    StatusCallOrigin(was, e, id);
    ClockNeverRunsBack(was, e);
    if t.status == Failed || t.status == Answered(false) {
      if id in was.threads && was.threads[id] == t {
        DeniedExtends(w, es, t.startedAt);
      } else {
        assert es[..|before|] == before;
        assert DeniedAt(w, es, |before|);
      }
    }
  }

  /**
    Under every interleaving, a "not complete" served from the cache was true of the server,
    or read off a lost request, less than the cache limit ago.
   */
  lemma ServedDenialIsFresh(w: World, es: seq<Event>, force: bool) returns (i: nat)
    requires Initial(w)
    requires CachedStatus(Run(w, es).client, force, Run(w, es).clock) == Some(false)
    ensures i <= |es| && Run(w, es).clock - Run(w, es[..i]).clock < GENESIS_CACHE_MS
    ensures DeniedAt(w, es, i)
  {
    RunsKeepDenials(w, es);
    var c := Run(w, es).client;
    i :| i <= |es| && c.fetchedAt <= Run(w, es[..i]).clock && DeniedAt(w, es, i);
  }

  // ---------------------------------------------------------------- the ceremony

  ghost predicate OneCeremony(w: World) {
    forall a, b :: a in w.threads && b in w.threads && w.threads[a].Ceremony? && w.threads[b].Ceremony? ==> a == b
  }

  ghost predicate CeremonyInFlight(w: World) {
    exists id :: id in w.threads && w.threads[id].Ceremony?
  }

  predicate IsDone(c: Client, s: Stage) {
    s in c.stages && c.stages[s] == Done
  }

  /** The "complete" mark stands only when combining and every stage shown for effect are done. */
  predicate CompleteIsEarned(c: Client) {
    IsDone(c, Complete) ==>
      IsDone(c, Hw) && IsDone(c, Combine) && forall k :: 0 <= k < |STUBS| ==> IsDone(c, STUBS[k])
  }

  /** Where the marks are while a ceremony sits at a given `await`. */
  predicate StagesAt(c: Client, at: CeremonyPoint) {
    && c.stages.Keys == ALL_FUTURE.Keys
    && !IsDone(c, Complete)
    && (!at.HardwareSleep? ==> IsDone(c, Hw))
    && (at.StubSleep? ==> at.k < |STUBS| && IsDone(c, Combine) && forall k :: 0 <= k < at.k ==> IsDone(c, STUBS[k]))
  }

  ghost predicate CeremonyInv(w: World) {
    && OneCeremony(w)
    && (w.client.running <==> CeremonyInFlight(w))
    && (w.client.errorPanel ==> !w.client.running)
    && CompleteIsEarned(w.client)
    && (forall id :: id in w.threads && w.threads[id].Ceremony? ==> StagesAt(w.client, w.threads[id].at))
  }

  predicate EndsInCeremony(o: Outcome) {
    o.next.Some? && o.next.value.Ceremony?
  }

  /** A stretch of code outside the ceremony: it leaves the ceremony alone, or starts one. */
  lemma AdvanceOutside(c: Client, now: int, t: Thread, proceed: bool, remote: bool)
    requires Ready(t) && !t.Ceremony?
    ensures var o := Advance(c, now, t, proceed, remote);
      if EndsInCeremony(o) then
        !c.running && o.client == StartCeremony(c) && o.next.value.at == HardwareSleep
      else
        o.client.running == c.running && o.client.stages == c.stages && o.client.errorPanel == c.errorPanel
  {
  }

  /** The hardware stage and the last stage are as they were, and no stage appeared or went. */
  predicate EndsUntouched(before: map<Stage, Mark>, after: map<Stage, Mark>) {
    && after.Keys == before.Keys
    && (Hw in before ==> after[Hw] == before[Hw])
    && (Complete in before ==> after[Complete] == before[Complete])
  }

  lemma MarkBetween(stages: map<Stage, Mark>, s: Stage, m: Mark)
    requires s != Hw && s != Complete
    ensures EndsUntouched(stages, SetStage(stages, s, m))
    ensures s in stages ==> SetStage(stages, s, m)[s] == m
    ensures forall x :: x in stages && x != s ==> SetStage(stages, s, m)[x] == stages[x]
  {
  }

  lemma FailureMarks(c: Client, remote: bool)
    ensures EndsUntouched(c.stages, CeremonyFails(c, remote).stages)
  {
    if remote {
      MarkBetween(c.stages, Curby, Broken);
      var one := SetStage(c.stages, Curby, Broken);
      MarkBetween(one, Beacons, Broken);
      MarkBetween(SetStage(one, Beacons, Broken), Combine, Broken);
    }
  }

  lemma SourceMarks(c: Client, curby: bool, beacons: bool)
    ensures EndsUntouched(c.stages, SourcesShown(c, curby, beacons).stages)
  {
    var m := if curby then Done else Broken;
    MarkBetween(c.stages, Curby, m);
    MarkBetween(SetStage(c.stages, Curby, m), Beacons, if beacons then Done else Broken);
  }

  /** A harvest reply settles the sources and the combination, and touches neither end of the ceremony. */
  lemma HarvestedMarks(c: Client, h: Harvest)
    ensures EndsUntouched(c.stages, Harvested(c, h).stages)
    ensures h.Success? && Combine in c.stages ==> IsDone(Harvested(c, h), Combine)
  {
    if h.Thrown? {
      FailureMarks(c, h.remote);
    } else {
      SourceMarks(c, h.curby, h.beacons);
      var shown := SourcesShown(c, h.curby, h.beacons);
      if h.Refused? {
        MarkBetween(shown.stages, Combine, Broken);
        FailureMarks(shown.(stages := SetStage(shown.stages, Combine, Broken)), h.remote);
      } else {
        MarkBetween(shown.stages, Combine, Done);
        MarkBetween(SetStage(shown.stages, Combine, Done), STUBS[0], Active);
      }
    }
  }

  /** Finishing a stage shown for effect keeps every finished stage finished. */
  lemma StubMarks(c: Client, k: nat, now: int)
    requires k < |STUBS| && c.stages.Keys == ALL_FUTURE.Keys
    ensures var c' := StubShown(c, k, now);
      && c'.stages.Keys == c.stages.Keys
      && IsDone(c', STUBS[k])
      && (forall s :: IsDone(c, s) && (k + 1 < |STUBS| ==> s != STUBS[k + 1]) ==> IsDone(c', s))
      && (k + 1 < |STUBS| ==> (IsDone(c', Complete) <==> IsDone(c, Complete)))
  {
  }

  lemma AdvanceInside(c: Client, now: int, at: CeremonyPoint, remote: bool)
    requires Ready(Ceremony(at)) && StagesAt(c, at) && c.running && !c.errorPanel
    ensures var o := CeremonyAdvances(c, now, at, remote);
      && o.client.running == EndsInCeremony(o)
      && CompleteIsEarned(o.client)
      && (EndsInCeremony(o) ==> !o.client.errorPanel && StagesAt(o.client, o.next.value.at))
  {
    match at
    case HardwareSleep =>
    case Harvesting(reply) =>
      HarvestedMarks(c, if reply.Answered? then reply.value else Thrown(remote));
    case StubSleep(k) =>
      StubMarks(c, k, now);
      forall j | 0 <= j <= k
        ensures IsDone(StubShown(c, k, now), STUBS[j])
      {
      }
  }

  lemma SettleKeepsCeremony(w: World, id: nat, o: Outcome)
    requires CeremonyInv(w) && id in w.threads
    requires CompleteIsEarned(o.client)
    requires o.client.errorPanel ==> !o.client.running
    requires EndsInCeremony(o) ==> o.client.running && StagesAt(o.client, o.next.value.at)
    requires w.threads[id].Ceremony? ==> o.client.running == EndsInCeremony(o)
    requires !w.threads[id].Ceremony? ==>
      if EndsInCeremony(o) then !w.client.running
      else o.client.running == w.client.running && o.client.stages == w.client.stages
    ensures CeremonyInv(Settle(w, id, o))
  {
    var w' := Settle(w, id, o);
    if EndsInCeremony(o) {
      assert w'.threads[id].Ceremony?;
    } else if o.client.running {
      var other :| other in w.threads && w.threads[other].Ceremony?;
      assert w'.threads[other].Ceremony?;
    }
  }

  lemma ResumeKeepsCeremony(w: World, id: nat, proceed: bool, remote: bool)
    requires CeremonyInv(w) && id in w.threads && Ready(w.threads[id])
    ensures CeremonyInv(Settle(w, id, Advance(w.client, w.clock, w.threads[id], proceed, remote)))
  {
    var t := w.threads[id];
    if t.Ceremony? {
      AdvanceInside(w.client, w.clock, t.at, remote);
    } else {
      AdvanceOutside(w.client, w.clock, t, proceed, remote);
    }
    SettleKeepsCeremony(w, id, Advance(w.client, w.clock, t, proceed, remote));
  }

  lemma ReplaceKeepsCeremony(w: World, id: nat, t: Thread, server: bool)
    requires CeremonyInv(w)
    requires id in w.threads ==> (t.Ceremony? <==> w.threads[id].Ceremony?)
    requires id !in w.threads ==> !t.Ceremony?
    requires t.Ceremony? ==> StagesAt(w.client, t.at)
    ensures CeremonyInv(w.(server := server, threads := w.threads[id := t]))
  {
    var w' := w.(server := server, threads := w.threads[id := t]);
    if CeremonyInFlight(w) {
      var c :| c in w.threads && w.threads[c].Ceremony?;
      assert c in w'.threads && w'.threads[c].Ceremony?;
    }
  }

  lemma RetryKeepsCeremony(w: World, id: nat)
    requires CeremonyInv(w) && w.client.errorPanel && id !in w.threads
    ensures CeremonyInv(Next(w, RetryClick(id)))
  {
    var w' := Next(w, RetryClick(id));
    assert w'.threads[id].Ceremony?;
    forall a | a in w'.threads && w'.threads[a].Ceremony?
      ensures a == id
    {
    }
  }

  lemma CeremonyStep(w: World, e: Event)
    requires CeremonyInv(w)
    ensures CeremonyInv(Next(w, e))
  {
    match e
    case Tick(_) =>
    case ServerReset =>
    case RouteBegins(id) => if id !in w.threads { ReplaceKeepsCeremony(w, id, RouteCrypto, w.server); }
    case AutoBegins(id) => if id !in w.threads { ReplaceKeepsCeremony(w, id, AutoStatus(Waiting), w.server); }
    case RetryClick(id) => if w.client.errorPanel && id !in w.threads { RetryKeepsCeremony(w, id); }
    case Answer(id, harvest) =>
      if id in w.threads && WaitsForStatus(w.threads[id]) {
        ReplaceKeepsCeremony(w, id, WithStatus(w.threads[id], Answered(w.server)), w.server);
      } else if id in w.threads && WaitsForHarvest(w.threads[id]) {
        ReplaceKeepsCeremony(w, id, WithHarvest(w.threads[id], Answered(harvest)), w.server || harvest.Success?);
      }
    case Lost(id, reached) =>
      if id in w.threads && WaitsForStatus(w.threads[id]) {
        ReplaceKeepsCeremony(w, id, WithStatus(w.threads[id], Failed), w.server);
      } else if id in w.threads && WaitsForHarvest(w.threads[id]) {
        ReplaceKeepsCeremony(w, id, WithHarvest(w.threads[id], Failed), w.server || reached);
      }
    case Resume(id, proceed, remote) =>
      if id in w.threads && Ready(w.threads[id]) { ResumeKeepsCeremony(w, id, proceed, remote); }
    case Dispatch(id) =>
      if DispatchEnabled(w, id) {
        var w' := Next(w, e);
        if CeremonyInFlight(w) {
          var c :| c in w.threads && w.threads[c].Ceremony?;
          assert c in w'.threads && w'.threads[c].Ceremony?;
        }
      }
  }

  /**
    In every run at most one ceremony is in flight, the flag says exactly whether one is, the
    retry button never shows beside one, and the "complete" stage is done only after all others.
   */
  lemma {:induction false} CeremonyIsExclusiveAndOrdered(w: World, es: seq<Event>)
    requires Initial(w)
    ensures CeremonyInv(Run(w, es))
  {
    if es != [] {
      CeremonyIsExclusiveAndOrdered(w, es[..|es| - 1]);
      CeremonyStep(Run(w, es[..|es| - 1]), es[|es| - 1]);
    }
  }

  /** The world after `retryGenesis` runs, whether or not its button is showing. */
  function RetryAnyway(w: World, id: nat): World {
    w.(client := Retry(w.client), threads := w.threads[id := Ceremony(HardwareSleep)])
  }

  /**
    `retryGenesis` lowers the flag without looking at it, so one ceremony stays one ceremony
    exactly when none is in flight: the button being gone is what keeps ceremonies apart.
   */
  lemma RetryIsSafeExactlyWhenIdle(w: World, id: nat)
    requires CeremonyInv(w) && id !in w.threads
    ensures OneCeremony(RetryAnyway(w, id)) <==> !w.client.running
  {
    var w' := RetryAnyway(w, id);
    assert w'.threads[id].Ceremony?;
    if w.client.running {
      var c :| c in w.threads && w.threads[c].Ceremony?;
      assert w'.threads[c].Ceremony? && c != id;
    } else {
      forall a | a in w'.threads && w'.threads[a].Ceremony?
        ensures a == id
      {
      }
    }
  }

  // ---------------------------------------------------------------- the gate opens

  /** The event neither answers nor runs the function at `id`. */
  predicate IsElsewhere(e: Event, id: nat) {
    match e
    case Answer(other, _) => other != id
    case Lost(other, _) => other != id
    case Resume(other, _, _) => other != id
    case Dispatch(other) => other != id
    case _ => true
  }

  predicate AreElsewhere(es: seq<Event>, id: nat) {
    forall i :: 0 <= i < |es| ==> IsElsewhere(es[i], id)
  }

  lemma ElsewhereStep(w: World, e: Event, id: nat)
    requires id in w.threads && IsElsewhere(e, id)
    ensures id in Next(w, e).threads && Next(w, e).threads[id] == w.threads[id]
  {
  }

  lemma {:induction false} ElsewhereKeepsThread(w: World, es: seq<Event>, id: nat)
    requires id in w.threads && AreElsewhere(es, id)
    ensures id in Run(w, es).threads && Run(w, es).threads[id] == w.threads[id]
  {
    if es != [] {
      ElsewhereKeepsThread(w, es[..|es| - 1], id);
      ElsewhereStep(Run(w, es[..|es| - 1]), es[|es| - 1], id);
    }
  }

  /** The function at `id` sits at `t`. */
  predicate SitsAt(w: World, id: nat, t: Thread) {
    id in w.threads && w.threads[id] == t
  }

  /** Before the gate a fresh answer is taken from the cache, and otherwise the server is asked. */
  lemma RouteAsksExactlyWhen(w: World, id: nat, remote: bool)
    requires SitsAt(w, id, RouteCrypto)
    ensures var w', c := Next(w, Resume(id, true, remote)), w.client;
      && id in w'.threads && w'.client == c
      && (WaitsForStatus(w'.threads[id]) <==> c.complete.None? || w.clock - c.fetchedAt >= 3000)
      && (WaitsForStatus(w'.threads[id]) ==> w'.threads[id] == RouteStatus(w.clock, Waiting))
      && (!WaitsForStatus(w'.threads[id]) ==> w'.threads[id] == RouteResumes(c.complete == Some(true)))
    ensures id !in Next(w, Resume(id, false, remote)).threads
  {
  }

  /** The answer of the server decides; a lost request counts as "not complete". */
  lemma RouteLearnsAnswer(w: World, id: nat, startedAt: int, harvest: Harvest, reached: bool)
    requires SitsAt(w, id, RouteStatus(startedAt, Waiting))
    ensures SitsAt(Next(w, Answer(id, harvest)), id, RouteStatus(startedAt, Answered(w.server)))
    ensures SitsAt(Next(w, Lost(id, reached)), id, RouteStatus(startedAt, Failed))
  {
  }

  lemma RouteTakesAnswer(w: World, id: nat, startedAt: int, reply: Reply<bool>, proceed: bool, remote: bool)
    requires SitsAt(w, id, RouteStatus(startedAt, reply)) && !reply.Waiting?
    ensures var w' := Next(w, Resume(id, proceed, remote));
      && SitsAt(w', id, RouteResumes(reply == Answered(true)))
      && w'.client.complete == Some(reply == Answered(true)) && w'.client.fetchedAt == startedAt
  {
  }

  /** With "complete" the route goes on to its page, and otherwise it asks for a harvest. */
  lemma RoutePasses(w: World, id: nat, genesisOk: bool, proceed: bool, remote: bool)
    requires SitsAt(w, id, RouteResumes(genesisOk))
    ensures var w' := Next(w, Resume(id, proceed, remote));
      && id in w'.threads && w'.client == w.client
      && (DispatchEnabled(w', id) <==> genesisOk) && (WaitsForHarvest(w'.threads[id]) <==> !genesisOk)
  {
  }

  lemma RunSnoc(w: World, es: seq<Event>, e: Event)
    ensures Run(w, es + [e]) == Next(Run(w, es), e)
  {
    assert (es + [e])[..|es|] == es;
  }

  lemma {:induction false} RunJoins(w: World, a: seq<Event>, b: seq<Event>)
    ensures Run(w, a + b) == Run(Run(w, a), b)
    decreases |b|
  {
    if b == [] {
      assert a + b == a;
    } else {
      var front, e := b[..|b| - 1], b[|b| - 1];
      RunJoins(w, a, front);
      assert a + b == (a + front) + [e] && b == front + [e];
      RunSnoc(w, a + front, e);
      RunSnoc(Run(w, a), front, e);
    }
  }

  /** Something happens to the function at `id` and then, before its next turn, anything elsewhere. */
  function Then(w: World, e: Event, others: seq<Event>): World {
    Run(Next(w, e), others)
  }

  lemma ThenKeepsThread(w: World, e: Event, others: seq<Event>, id: nat)
    requires id in Next(w, e).threads && AreElsewhere(others, id)
    ensures id in Then(w, e, others).threads && Then(w, e, others).threads[id] == Next(w, e).threads[id]
  {
    ElsewhereKeepsThread(Next(w, e), others, id);
  }

  /**
    A fresh cached "complete" opens the page without any request: whatever happens elsewhere in
    between, the route's next two turns bring it to its page.
   */
  lemma FreshCompletionOpens(w: World, id: nat, others: seq<Event>, r: bool, p: bool, q: bool)
    requires SitsAt(w, id, RouteCrypto) && AreElsewhere(others, id)
    requires w.client.complete == Some(true) && w.clock - w.client.fetchedAt < 3000
    ensures var once := Then(w, Resume(id, true, r), others);
      && id in once.threads && !WaitsForStatus(once.threads[id]) && !WaitsForHarvest(once.threads[id])
      && DispatchEnabled(Next(once, Resume(id, p, q)), id)
  {
    RouteAsksExactlyWhen(w, id, r);
    ThenKeepsThread(w, Resume(id, true, r), others, id);
    RoutePasses(Then(w, Resume(id, true, r), others), id, true, p, q);
  }

  /**
    A route whose status request is answered opens its page if the server was complete then, and
    otherwise, or when the request is lost, asks for a harvest; whatever happens elsewhere.
   */
  lemma AnswerDecides(w: World, id: nat, startedAt: int, e: Event, a: seq<Event>, b: seq<Event>, p: bool, r: bool, p': bool, r': bool)
    requires SitsAt(w, id, RouteStatus(startedAt, Waiting)) && AreElsewhere(a, id) && AreElsewhere(b, id)
    requires (e.Answer? || e.Lost?) && e.id == id
    ensures var told := Then(w, e, a);
      var taken := Then(told, Resume(id, p, r), b);
      var end := Next(taken, Resume(id, p', r'));
      && id in told.threads && !WaitsForHarvest(told.threads[id])
      && id in taken.threads && !WaitsForHarvest(taken.threads[id])
      && id in end.threads
      && (DispatchEnabled(end, id) <==> e.Answer? && w.server)
      && (WaitsForHarvest(end.threads[id]) <==> e.Lost? || !w.server)
  {
    RouteLearnsAnswer(w, id, startedAt, Thrown(false), false);
    var reply := if e.Answer? then Answered(w.server) else Failed;
    AnswerIgnoresHarvest(w, e, id, startedAt);
    ThenKeepsThread(w, e, a, id);
    var told := Then(w, e, a);
    RouteTakesAnswer(told, id, startedAt, reply, p, r);
    ThenKeepsThread(told, Resume(id, p, r), b, id);
    RoutePasses(Then(told, Resume(id, p, r), b), id, reply == Answered(true), p', r');
  }

  lemma AnswerIgnoresHarvest(w: World, e: Event, id: nat, startedAt: int)
    requires SitsAt(w, id, RouteStatus(startedAt, Waiting)) && (e.Answer? || e.Lost?) && e.id == id
    ensures SitsAt(Next(w, e), id, RouteStatus(startedAt, if e.Answer? then Answered(w.server) else Failed))
  {
  }

  /** A successful harvest opens the page and is remembered; any other one opens the ceremony unless one runs. */
  lemma RecoveryDecides(w: World, id: nat, e: Event, others: seq<Event>, p: bool, r: bool)
    requires SitsAt(w, id, RouteRecovery(Waiting)) && AreElsewhere(others, id)
    requires (e.Answer? || e.Lost?) && e.id == id
    ensures var told := Then(w, e, others);
      var end := Next(told, Resume(id, p, r));
      if e.Answer? && e.harvest.Success? then
        DispatchEnabled(end, id) && end.client.complete == Some(true) && end.client.fetchedAt == told.clock
      else if told.client.running then
        id !in end.threads && end.client == told.client
      else
        SitsAt(end, id, Ceremony(HardwareSleep)) && end.client.running && !end.client.errorPanel
  {
    ThenKeepsThread(w, e, others, id);
  }

  /** From the start of a navigation: a complete server that answers opens the page, on one run. */
  lemma CompleteServerOpens(w: World, id: nat, h: Harvest, r: bool)
    requires id !in w.threads && w.server && w.client.complete != Some(false)
    ensures var es := [RouteBegins(id), Resume(id, true, r)] +
        if w.client.complete.Some? && w.clock - w.client.fetchedAt < 3000 then [] else [Answer(id, h), Resume(id, true, r)];
      DispatchEnabled(Run(w, es + [Resume(id, true, r)]), id)
  {
    var begun := Next(w, RouteBegins(id));
    RunSnoc(w, [], RouteBegins(id));
    RunSnoc(w, [RouteBegins(id)], Resume(id, true, r));
    assert [] + [RouteBegins(id)] == [RouteBegins(id)];
    assert [RouteBegins(id)] + [Resume(id, true, r)] == [RouteBegins(id), Resume(id, true, r)];
    RouteAsksExactlyWhen(begun, id, r);
    var asked := Next(begun, Resume(id, true, r));
    var first := [RouteBegins(id), Resume(id, true, r)];
    if w.client.complete.Some? && w.clock - w.client.fetchedAt < 3000 {
      assert first + [] == first;
      RunSnoc(w, first, Resume(id, true, r));
      RoutePasses(asked, id, true, true, r);
    } else {
      AnswerDecides(asked, id, begun.clock, Answer(id, h), [], [], true, r, true, r);
      RunSnoc(w, first, Answer(id, h));
      RunSnoc(w, first + [Answer(id, h)], Resume(id, true, r));
      assert first + [Answer(id, h)] + [Resume(id, true, r)] == first + [Answer(id, h), Resume(id, true, r)];
      RunSnoc(w, first + [Answer(id, h), Resume(id, true, r)], Resume(id, true, r));
      assert Then(asked, Answer(id, h), []) == Next(asked, Answer(id, h));
    }
  }

  // ---------------------------------------------------------------- how a ceremony ends

  /** A reply shows which sources answered; blaming the remote sources breaks them again. */
  lemma SourcesAreShown(c: Client, h: Harvest)
    requires c.stages.Keys == ALL_FUTURE.Keys && !h.Thrown?
    ensures var stages := Harvested(c, h).stages;
      if h.Refused? && h.remote then
        stages[Curby] == Broken && stages[Beacons] == Broken && stages[Combine] == Broken
      else
        && (stages[Curby] == if h.curby then Done else Broken)
        && (stages[Beacons] == if h.beacons then Done else Broken)
        && (stages[Combine] == if h.Success? then Done else Broken)
  {
  }

  /** A ceremony fails into the error panel, from which a click starts the next one, with nothing remembered. */
  lemma FailureOffersRetry(w: World, id: nat, h: Harvest, again: nat, p: bool, r: bool)
    requires SitsAt(w, id, Ceremony(Harvesting(Answered(h)))) && !h.Success? && again !in w.threads
    ensures var failed := Next(w, Resume(id, p, r));
      && failed.client.errorPanel && !failed.client.running && id !in failed.threads
      && var retried := Next(failed, RetryClick(again));
         && SitsAt(retried, again, Ceremony(HardwareSleep)) && retried.client.running && !retried.client.errorPanel
         && retried.client.complete == None
         && retried.client.stages == SetStage(ALL_FUTURE, Hw, Active)
  {
  }

  /** The marks of a ceremony that goes well, before its first stage shown for effect ends. */
  predicate Prepared(c: Client) {
    && c.stages.Keys == ALL_FUTURE.Keys
    && c.stages[Hw] == Done && c.stages[Combine] == Done && c.stages[Complete] == Future
    && c.stages[STUBS[0]] == Active
  }

  /** A successful harvest prepares the stages shown for effect. */
  lemma SuccessPrepares(c: Client, h: Harvest)
    requires c.stages.Keys == ALL_FUTURE.Keys && c.stages[Hw] == Done && c.stages[Complete] == Future && h.Success?
    ensures Prepared(Harvested(c, h)) && Harvested(c, h).running == c.running && Harvested(c, h).errorPanel == c.errorPanel
  {
    HarvestedMarks(c, h);
  }

  predicate HasMark(c: Client, s: Stage, m: Mark) {
    s in c.stages && c.stages[s] == m
  }

  /** After the hardware stage the remote sources are asked. */
  lemma HardwareEnds(w: World, id: nat, p: bool, r: bool)
    requires SitsAt(w, id, Ceremony(HardwareSleep)) && w.client.stages.Keys == ALL_FUTURE.Keys
    ensures var w' := Next(w, Resume(id, p, r));
      && SitsAt(w', id, Ceremony(Harvesting(Waiting))) && w'.client.running == w.client.running
      && HasMark(w'.client, Hw, Done) && HasMark(w'.client, Curby, Active)
  {
  }

  /** Each stage shown for effect ends in turn and hands over to the next. */
  lemma StubEnds(w: World, id: nat, k: nat, p: bool, r: bool)
    requires SitsAt(w, id, Ceremony(StubSleep(k))) && k < 4 && w.client.stages.Keys == ALL_FUTURE.Keys
    ensures var w' := Next(w, Resume(id, p, r));
      && SitsAt(w', id, Ceremony(StubSleep(k + 1)))
      && HasMark(w'.client, STUBS[k], Done) && HasMark(w'.client, STUBS[k + 1], Active)
      && w'.client.complete == w.client.complete && w'.client.running == w.client.running
  {
  }

  /** The last one completes the ceremony and, after a pause, starts a route. */
  lemma LastStubEnds(w: World, id: nat, p: bool, r: bool)
    requires SitsAt(w, id, Ceremony(StubSleep(4))) && w.client.stages.Keys == ALL_FUTURE.Keys
    ensures var w' := Next(w, Resume(id, p, r));
      && SitsAt(w', id, CompleteTimer) && !w'.client.running
      && HasMark(w'.client, Verify, Done) && HasMark(w'.client, Complete, Done)
      && w'.client.complete == Some(true) && w'.client.fetchedAt == w.clock
  {
  }

  lemma TimerStartsRoute(w: World, id: nat, p: bool, r: bool)
    requires SitsAt(w, id, CompleteTimer)
    ensures var w' := Next(w, Resume(id, p, r));
      SitsAt(w', id, RouteCrypto) && w'.client.complete == Some(true) && w'.client.fetchedAt == w.clock
  {
  }
}
