/**
  Push notifications: the subscription table with the per-user switch, and the fan-out that sends
  to every subscription at once and joins the results with a counter.
 */
module PushNotifications {
  import opened Common

  type Endpoint = string
  type UserId = nat

  // ---------- Subscriptions ----------

  datatype Db = Db(subscriptions: map<Endpoint, UserId>, pushEnabled: map<UserId, bool>)

  function Add(db: Db, endpoint: Endpoint, user: UserId): Db {
    if endpoint in db.subscriptions then db
    else Db(db.subscriptions[endpoint := user], db.pushEnabled[user := true])
  }

  /** Deleting a row that is not there makes the transaction fail as a whole. */
  function Remove(db: Db, endpoint: Endpoint, user: UserId): Db {
    if endpoint !in db.subscriptions then db
    else Db(db.subscriptions - {endpoint}, db.pushEnabled[user := false])
  }

  predicate IsEnabled(db: Db, user: UserId) { user in db.pushEnabled && db.pushEnabled[user] }

  predicate HasSubscription(db: Db, user: UserId) { exists e <- db.subscriptions :: db.subscriptions[e] == user }

  /** An enabled user has somewhere to send to. */
  ghost predicate Reachable(db: Db) { forall u <- db.pushEnabled :: IsEnabled(db, u) ==> HasSubscription(db, u) }

  /** A user writes the switch in his settings. */
  function Switch(db: Db, user: UserId, on: bool): Db { db.(pushEnabled := db.pushEnabled[user := on]) }

  const EMPTY := Db(map[], map[])

  datatype Op =
    | OpAdd(endpoint: Endpoint, user: UserId)
    | OpRemove(endpoint: Endpoint, user: UserId)
    | OpSwitch(user: UserId, on: bool)

  function Apply(db: Db, op: Op): Db {
    match op
    case OpAdd(e, u) => Add(db, e, u)
    case OpRemove(e, u) => Remove(db, e, u)
    case OpSwitch(u, on) => Switch(db, u, on)
  }

  function Run(db: Db, ops: seq<Op>): Db
    decreases |ops|
  {
    if ops == [] then db else Run(Apply(db, ops[0]), ops[1..])
  }

  /**
    An endpoint that is new goes to its user, who is then enabled; nobody else is concerned, and a known
    one changes nothing.
   */
  lemma AddExactly(db: Db, endpoint: Endpoint, user: UserId)
    ensures var db' := Add(db, endpoint, user);
            if endpoint in db.subscriptions then db' == db
            else
              && (forall e :: e in db'.subscriptions <==> e in db.subscriptions || e == endpoint)
              && db'.subscriptions[endpoint] == user
              && (forall e <- db.subscriptions :: db'.subscriptions[e] == db.subscriptions[e])
              && forall u :: IsEnabled(db', u) <==> IsEnabled(db, u) || u == user
  {
  }

  lemma AddKeepsReachable(db: Db, endpoint: Endpoint, user: UserId)
    requires Reachable(db)
    ensures Reachable(Add(db, endpoint, user))
  {
    var db' := Add(db, endpoint, user);
    forall u <- db'.pushEnabled | IsEnabled(db', u) ensures HasSubscription(db', u) {
      if db' != db && u == user {
        assert db'.subscriptions[endpoint] == u;
      } else {
        var e :| e in db.subscriptions && db.subscriptions[e] == u;
        assert db'.subscriptions[e] == u;
      }
    }
  }

  /** The owner of the endpoint is the caller, is switched off anyway, or has another subscription. */
  predicate RemovalIsHarmless(db: Db, endpoint: Endpoint, user: UserId) {
    endpoint in db.subscriptions ==>
      var owner := db.subscriptions[endpoint];
      owner == user || !IsEnabled(db, owner) || exists e <- db.subscriptions ::
        e != endpoint && db.subscriptions[e] == owner
  }

  /** Exactly then a removal leaves every enabled user with a subscription. */
  lemma RemoveKeepsReachable(db: Db, endpoint: Endpoint, user: UserId)
    requires Reachable(db)
    ensures Reachable(Remove(db, endpoint, user)) <==> RemovalIsHarmless(db, endpoint, user)
  {
    var db' := Remove(db, endpoint, user);
    if endpoint in db.subscriptions {
      var owner := db.subscriptions[endpoint];
      if RemovalIsHarmless(db, endpoint, user) {
        forall u <- db'.pushEnabled | IsEnabled(db', u) ensures HasSubscription(db', u) {
          assert u != user && IsEnabled(db, u);
          if u == owner {
            var e :| e in db.subscriptions && e != endpoint && db.subscriptions[e] == owner;
            assert db'.subscriptions[e] == u;
          } else {
            var e :| e in db.subscriptions && db.subscriptions[e] == u;
            assert db'.subscriptions[e] == u;
          }
        }
      } else {
        assert IsEnabled(db', owner);
        assert !HasSubscription(db', owner);
      }
    }
  }

  /** Switching on is harmless exactly for a user who has a subscription. */
  lemma SwitchKeepsReachable(db: Db, user: UserId, on: bool)
    requires Reachable(db)
    ensures Reachable(Switch(db, user, on)) <==> !on || HasSubscription(db, user)
  {
    var db' := Switch(db, user, on);
    if !on || HasSubscription(db, user) {
      forall u <- db'.pushEnabled | IsEnabled(db', u) ensures HasSubscription(db', u) {
        assert u != user ==> IsEnabled(db, u) && u in db.pushEnabled;
        var e :| e in db.subscriptions && db.subscriptions[e] == u;
        assert db'.subscriptions[e] == u;
      }
    } else {
      assert IsEnabled(db', user) && !HasSubscription(db', user);
    }
  }

  /** What an operation needs, so that no enabled user is left without a subscription. */
  predicate Harmless(db: Db, op: Op) {
    match op
    case OpAdd(_, _) => true
    case OpRemove(e, u) => RemovalIsHarmless(db, e, u)
    case OpSwitch(u, on) => !on || HasSubscription(db, u)
  }

  predicate HarmlessRun(db: Db, ops: seq<Op>)
    decreases |ops|
  {
    ops == [] || (Harmless(db, ops[0]) && HarmlessRun(Apply(db, ops[0]), ops[1..]))
  }

  ghost predicate ReachableThroughout(db: Db, ops: seq<Op>)
    decreases |ops|
  {
    Reachable(db) && (ops == [] || ReachableThroughout(Apply(db, ops[0]), ops[1..]))
  }

  lemma StepKeepsReachable(db: Db, op: Op)
    requires Reachable(db)
    ensures Reachable(Apply(db, op)) <==> Harmless(db, op)
  {
    match op
    case OpAdd(e, u) => AddKeepsReachable(db, e, u);
    case OpRemove(e, u) => RemoveKeepsReachable(db, e, u);
    case OpSwitch(u, on) => SwitchKeepsReachable(db, u, on);
  }

  /**
    Over every run: every enabled user has a subscription all along exactly if every operation is
    harmless when it comes.
   */
  lemma {:induction false} RunKeepsReachable(db: Db, ops: seq<Op>)
    requires Reachable(db)
    ensures ReachableThroughout(db, ops) <==> HarmlessRun(db, ops)
    ensures HarmlessRun(db, ops) ==> Reachable(Run(db, ops))
    decreases |ops|
  {
    if ops != [] {
      StepKeepsReachable(db, ops[0]);
      if Harmless(db, ops[0]) { RunKeepsReachable(Apply(db, ops[0]), ops[1..]); }
      else { assert !ReachableThroughout(Apply(db, ops[0]), ops[1..]); }
    }
  }

  predicate ByOwner(db: Db, op: Op) {
    match op
    case OpAdd(_, _) => true
    case OpRemove(e, u) => e in db.subscriptions ==> db.subscriptions[e] == u
    case OpSwitch(u, on) => !on || HasSubscription(db, u)
  }

  /** In particular: endpoints are only removed on behalf of their owner, and only who has one switches on. */
  predicate OwnerRemoves(db: Db, ops: seq<Op>)
    decreases |ops|
  {
    ops == [] || (ByOwner(db, ops[0]) && OwnerRemoves(Apply(db, ops[0]), ops[1..]))
  }

  lemma {:induction false} OwnerRemovesIsHarmless(db: Db, ops: seq<Op>)
    requires OwnerRemoves(db, ops)
    ensures HarmlessRun(db, ops)
    decreases |ops|
  {
    if ops != [] { OwnerRemovesIsHarmless(Apply(db, ops[0]), ops[1..]); }
  }

  // ---------- The fan-out ----------

  /** How one send settles. `Gone` is a push-service answer of 404 or 410. */
  datatype Outcome = Delivered | Gone | Failed(error: string)

  datatype Phase = Sending | Settled | Done

  datatype Promise = Pending | Resolved(success: seq<Endpoint>, failure: seq<Endpoint>) | Rejected(error: string)

  datatype Entry = Entry(endpoint: Endpoint, outcome: Outcome)

  /** `log` is a history: the sends that have settled, in order. */
  datatype FanOut = FanOut(
    endpoints: seq<Endpoint>,
    phase: seq<Phase>,
    count: nat,
    success: seq<Endpoint>,
    failure: seq<Endpoint>,
    promise: Promise,
    log: seq<Entry>)

  function Start(endpoints: seq<Endpoint>): FanOut {
    FanOut(endpoints, seq(|endpoints|, _ => Sending), 0, [], [], Pending, [])
  }

  datatype Event = Settle(index: nat, outcome: Outcome) | Finally(index: nat)

  function Step(f: FanOut, e: Event): FanOut {
    if e.index >= |f.endpoints| || |f.phase| != |f.endpoints| then f
    else
      var i, endpoint := e.index, f.endpoints[e.index];
      match e
      case Settle(_, o) =>
        if !f.phase[i].Sending? then f
        else
          var g := f.(phase := f.phase[i := Settled], log := f.log + [Entry(endpoint, o)]);
          (match o
           case Delivered => g.(success := f.success + [endpoint])
           case Gone => g.(failure := f.failure + [endpoint])
           case Failed(error) =>
             g.(failure := f.failure + [endpoint],
                promise := if f.promise.Pending? then Rejected(error) else f.promise))
      case Finally(_) =>
        if !f.phase[i].Settled? then f
        else
          var count := f.count + 1;
          f.(phase := f.phase[i := Done], count := count,
             promise := if count == |f.endpoints| && f.promise.Pending?
                        then Resolved(f.success, f.failure) else f.promise)
  }

  function Play(f: FanOut, es: seq<Event>): FanOut
    decreases |es|
  {
    if es == [] then f else Play(Step(f, es[0]), es[1..])
  }

  // ---------- What the result means ----------

  /** The first error in settlement order that is not 404 or 410. */
  function FirstError(log: seq<Entry>): Option<string> {
    if log == [] then None
    else if log[0].outcome.Failed? then Some(log[0].outcome.error)
    else FirstError(log[1..])
  }

  predicate AllDone(f: FanOut) { forall p <- f.phase :: p.Done? }

  function DoneCount(phase: seq<Phase>): nat {
    if phase == [] then 0 else DoneCount(phase[..|phase| - 1]) + (if phase[|phase| - 1].Done? then 1 else 0)
  }

  /** The endpoints whose send has settled. */
  function SettledBag(endpoints: seq<Endpoint>, phase: seq<Phase>): multiset<Endpoint>
    requires |endpoints| == |phase|
  {
    if phase == [] then multiset{}
    else
      var last := |phase| - 1;
      SettledBag(endpoints[..last], phase[..last])
        + (if phase[last].Sending? then multiset{} else multiset{endpoints[last]})
  }

  /** The endpoints whose send was delivered (or was not), in settlement order. */
  function Listed(log: seq<Entry>, delivered: bool): seq<Endpoint> {
    if log == [] then []
    else
      var last := |log| - 1;
      if log[last].outcome.Delivered? == delivered then Listed(log[..last], delivered) + [log[last].endpoint]
      else Listed(log[..last], delivered)
  }

  ghost predicate Inv(f: FanOut) {
    && |f.phase| == |f.endpoints|
    && f.count == DoneCount(f.phase)
    && multiset(f.success) + multiset(f.failure) == SettledBag(f.endpoints, f.phase)
    && f.success == Listed(f.log, true) && f.failure == Listed(f.log, false)
    && match f.promise
       case Pending => FirstError(f.log).None? && (f.count < |f.endpoints| || f.endpoints == [])
       case Resolved(s, l) => FirstError(f.log).None? && f.count == |f.endpoints|
           && f.endpoints != [] && s == f.success && l == f.failure
       case Rejected(error) => FirstError(f.log) == Some(error)
  }

  lemma {:induction false} DoneCountUpdate(phase: seq<Phase>, i: nat, p: Phase)
    requires i < |phase|
    ensures DoneCount(phase[i := p]) ==
        DoneCount(phase) - (if phase[i].Done? then 1 else 0) + (if p.Done? then 1 else 0)
  {
    var last := |phase| - 1;
    if i < last {
      assert phase[i := p][..last] == phase[..last][i := p];
      DoneCountUpdate(phase[..last], i, p);
    } else {
      assert phase[i := p][..last] == phase[..last];
    }
  }

  lemma {:induction false} DoneCountFull(phase: seq<Phase>)
    ensures DoneCount(phase) <= |phase|
    ensures DoneCount(phase) == |phase| <==> forall p <- phase :: p.Done?
  {
    if phase != [] {
      var last := |phase| - 1;
      DoneCountFull(phase[..last]);
      assert phase == phase[..last] + [phase[last]];
    }
  }

  lemma {:induction false} SettledBagUpdate(endpoints: seq<Endpoint>, phase: seq<Phase>, i: nat, p: Phase)
    requires |endpoints| == |phase| && i < |phase| && !p.Sending?
    ensures SettledBag(endpoints, phase[i := p])
         == SettledBag(endpoints, phase) + (if phase[i].Sending? then multiset{endpoints[i]} else multiset{})
  {
    var last := |phase| - 1;
    if i < last {
      assert phase[i := p][..last] == phase[..last][i := p];
      SettledBagUpdate(endpoints[..last], phase[..last], i, p);
    } else {
      assert phase[i := p][..last] == phase[..last];
    }
  }

  lemma {:induction false} SettledBagFull(endpoints: seq<Endpoint>, phase: seq<Phase>)
    requires |endpoints| == |phase| && forall p <- phase :: !p.Sending?
    ensures SettledBag(endpoints, phase) == multiset(endpoints)
  {
    if phase != [] {
      var last := |phase| - 1;
      SettledBagFull(endpoints[..last], phase[..last]);
      assert endpoints == endpoints[..last] + [endpoints[last]];
    }
  }

  lemma {:induction false} FirstErrorSnoc(log: seq<Entry>, e: Entry)
    ensures FirstError(log + [e]) ==
        if FirstError(log).Some? then FirstError(log) else if e.outcome.Failed? then Some(e.outcome.error) else None
  {
    if log == [] {
      assert FirstError([e][1..]) == None;
    } else {
      assert (log + [e])[1..] == log[1..] + [e];
      FirstErrorSnoc(log[1..], e);
    }
  }

  lemma StartInv(endpoints: seq<Endpoint>)
    ensures Inv(Start(endpoints))
  {
    NothingSettled(endpoints, Start(endpoints).phase);
  }

  lemma {:induction false} NothingSettled(endpoints: seq<Endpoint>, phase: seq<Phase>)
    requires |phase| == |endpoints| && forall p <- phase :: p.Sending?
    ensures DoneCount(phase) == 0 && SettledBag(endpoints, phase) == multiset{}
  {
    if phase != [] {
      assert phase[|phase| - 1] in phase;
      NothingSettled(endpoints[..|phase| - 1], phase[..|phase| - 1]);
    }
  }

  lemma SettleCounts(f: FanOut, i: nat, o: Outcome)
    requires Inv(f) && i < |f.endpoints| && f.phase[i].Sending?
    ensures var g := Step(f, Settle(i, o));
            && g.count == DoneCount(g.phase)
            && multiset(g.success) + multiset(g.failure) == SettledBag(g.endpoints, g.phase)
  {
    DoneCountUpdate(f.phase, i, Settled);
    SettledBagUpdate(f.endpoints, f.phase, i, Settled);
  }

  /** A send that is still out keeps the promise from having been fulfilled. */
  lemma SendingIsNotCounted(f: FanOut, i: nat)
    requires Inv(f) && i < |f.endpoints| && !f.phase[i].Done?
    ensures f.count < |f.endpoints| && !f.promise.Resolved?
  {
    DoneCountFull(f.phase);
    assert f.phase[i] in f.phase;
  }

  lemma SettleInv(f: FanOut, i: nat, o: Outcome)
    requires Inv(f)
    ensures Inv(Step(f, Settle(i, o)))
  {
    if i < |f.endpoints| && f.phase[i].Sending? {
      SettleCounts(f, i, o);
      SendingIsNotCounted(f, i);
      FirstErrorSnoc(f.log, Entry(f.endpoints[i], o));
    }
  }

  lemma FinallyInv(f: FanOut, i: nat)
    requires Inv(f)
    ensures Inv(Step(f, Finally(i)))
  {
    if i < |f.endpoints| && f.phase[i].Settled? {
      DoneCountUpdate(f.phase, i, Done);
      SettledBagUpdate(f.endpoints, f.phase, i, Done);
      SendingIsNotCounted(f, i);
    }
  }

  lemma {:induction false} PlayInv(f: FanOut, es: seq<Event>)
    requires Inv(f)
    ensures Inv(Play(f, es))
    decreases |es|
  {
    if es != [] {
      match es[0] {
        case Settle(i, o) => SettleInv(f, i, o);
        case Finally(i) => FinallyInv(f, i);
      }
      PlayInv(Step(f, es[0]), es[1..]);
    }
  }

  // ---------- How the sends settle, read off the events alone ----------

  /** The first settling of each send; `seen` are those that have settled before. */
  function Settlings(endpoints: seq<Endpoint>, es: seq<Event>, seen: set<nat>): seq<Entry> {
    if es == [] then []
    else if es[0].Settle? && es[0].index < |endpoints| && es[0].index !in seen
    then [Entry(endpoints[es[0].index], es[0].outcome)] + Settlings(endpoints, es[1..], seen + {es[0].index})
    else Settlings(endpoints, es[1..], seen)
  }

  /** The log holds nothing else. */
  lemma {:induction false} LogIsSettlings(f: FanOut, es: seq<Event>, seen: set<nat>)
    requires |f.phase| == |f.endpoints| && forall i | 0 <= i < |f.phase| :: i in seen <==> !f.phase[i].Sending?
    ensures Play(f, es).log == f.log + Settlings(f.endpoints, es, seen)
    decreases |es|
  {
    if es != [] {
      var g := Step(f, es[0]);
      if es[0].Settle? && es[0].index < |f.endpoints| && es[0].index !in seen {
        var entry := Entry(f.endpoints[es[0].index], es[0].outcome);
        LogIsSettlings(g, es[1..], seen + {es[0].index});
        assert f.log + [entry] + Settlings(f.endpoints, es[1..], seen + {es[0].index})
            == f.log + ([entry] + Settlings(f.endpoints, es[1..], seen + {es[0].index}));
      } else {
        LogIsSettlings(g, es[1..], seen);
      }
    }
  }

  lemma {:induction false} ListedIsExact(log: seq<Entry>, delivered: bool)
    ensures forall e :: e in Listed(log, delivered) <==> exists x <- log ::
        x.endpoint == e && (x.outcome == Delivered) == delivered
  {
    if log != [] {
      var last := |log| - 1;
      ListedIsExact(log[..last], delivered);
      assert forall x :: x in log <==> x in log[..last] || x == log[last];
    }
  }

  lemma {:induction false} FirstErrorIsFirst(log: seq<Entry>)
    ensures match FirstError(log)
            case None => forall x <- log :: !x.outcome.Failed?
            case Some(error) =>
              exists i | 0 <= i < |log| :: log[i].outcome == Failed(error) && forall j | 0 <= j < i ::
                !log[j].outcome.Failed?
  {
    if log != [] && !log[0].outcome.Failed? {
      FirstErrorIsFirst(log[1..]);
      assert forall x :: x in log <==> x == log[0] || x in log[1..];
      if FirstError(log).Some? {
        var i :| 0 <= i < |log[1..]| && log[1..][i].outcome == Failed(FirstError(log).value)
                 && forall j | 0 <= j < i :: !log[1..][j].outcome.Failed?;
        forall j | 0 <= j < i + 1 ensures !log[j].outcome.Failed? {
          if j > 0 { assert log[j] == log[1..][j - 1]; }
        }
        assert log[i + 1].outcome == Failed(FirstError(log).value);
      }
    }
  }

  // ---------- Main results ----------

  /** What the promise of a fan-out over these endpoints comes to when its sends settle like this. */
  ghost predicate Answers(endpoints: seq<Endpoint>, settled: seq<Entry>, promise: Promise) {
    match promise
    case Pending => false
    case Resolved(success, failure) =>
      && (forall x <- settled :: !x.outcome.Failed?)
      && (forall e :: e in success <==> exists x <- settled :: x.endpoint == e && x.outcome == Delivered)
      && (forall e :: e in failure <==> exists x <- settled :: x.endpoint == e && x.outcome == Gone)
      && multiset(success) + multiset(failure) == multiset(endpoints)
    case Rejected(error) =>
      exists i | 0 <= i < |settled| ::
        settled[i].outcome == Failed(error) && forall j | 0 <= j < i :: !settled[j].outcome.Failed?
  }

  /**
    Once every send has settled and been counted, the promise is settled. If every failure was 404 or
    410 it is fulfilled with two lists that split the endpoints: those delivered to and those that
    are gone. Otherwise it is rejected with the first other error. All this is said of the events.
   */
  lemma CompletedFanOut(endpoints: seq<Endpoint>, es: seq<Event>)
    requires endpoints != [] && AllDone(Play(Start(endpoints), es))
    ensures Answers(endpoints, Settlings(endpoints, es, {}), Play(Start(endpoints), es).promise)
  {
    StartInv(endpoints);
    PlayInv(Start(endpoints), es);
    var f := Play(Start(endpoints), es);
    PlayKeepsEndpoints(Start(endpoints), es);
    DoneCountFull(f.phase);
    SettledBagFull(f.endpoints, f.phase);
    LogIsSettlings(Start(endpoints), es, {});
    assert f.log == [] + Settlings(endpoints, es, {}) == Settlings(endpoints, es, {});
    ListedIsExact(f.log, true);
    ListedIsExact(f.log, false);
    FirstErrorIsFirst(f.log);
  }

  /** One subscription whose service answers 410: it is reported as failed. */
  lemma GoneIsFailure(e: Endpoint)
    ensures Play(Start([e]), [Settle(0, Gone), Finally(0)]).promise == Resolved([], [e])
  {
    var es := [Settle(0, Gone), Finally(0)];
    assert es[1..] == [Finally(0)] && es[1..][1..] == [];
    var f := Step(Start([e]), es[0]);
    var g := Step(f, es[1]);
    assert Play(f, es[1..]) == Play(g, es[1..][1..]) == g;
  }

  /** It is never fulfilled before the last send is counted, and with no subscription it never settles at all. */
  lemma NotBeforeTheLast(endpoints: seq<Endpoint>, es: seq<Event>)
    ensures var f := Play(Start(endpoints), es);
            && (f.promise.Resolved? ==> AllDone(f))
            && (f.promise.Rejected? ==> FirstError(f.log) == Some(f.promise.error))
            && (endpoints == [] ==> f.promise.Pending?)
  {
    StartInv(endpoints);
    PlayInv(Start(endpoints), es);
    PlayKeepsEndpoints(Start(endpoints), es);
    var f := Play(Start(endpoints), es);
    DoneCountFull(f.phase);
    if endpoints == [] { EmptyNeverMoves(Start(endpoints), es); }
  }

  lemma {:induction false} EmptyNeverMoves(f: FanOut, es: seq<Event>)
    requires f.endpoints == []
    ensures Play(f, es) == f
    decreases |es|
  {
    if es != [] { EmptyNeverMoves(f, es[1..]); }
  }

  lemma {:induction false} PlayKeepsEndpoints(f: FanOut, es: seq<Event>)
    ensures Play(f, es).endpoints == f.endpoints
    decreases |es|
  {
    if es != [] { PlayKeepsEndpoints(Step(f, es[0]), es[1..]); }
  }

  /** A settled promise never changes. */
  lemma {:induction false} SettledOnce(f: FanOut, es: seq<Event>)
    requires !f.promise.Pending?
    ensures Play(f, es).promise == f.promise
    decreases |es|
  {
    if es != [] { SettledOnce(Step(f, es[0]), es[1..]); }
  }

  /** The endpoints a user is sent to, as the table lists them. */
  ghost predicate ListsSubscriptions(db: Db, user: UserId, endpoints: seq<Endpoint>) {
    forall e :: e in endpoints <==> e in db.subscriptions && db.subscriptions[e] == user
  }

  lemma ListsSome(db: Db, user: UserId, endpoints: seq<Endpoint>)
    requires ListsSubscriptions(db, user, endpoints)
    ensures HasSubscription(db, user) <==> endpoints != []
  {
    if endpoints != [] {
      assert endpoints[0] in endpoints;
    }
  }

  lemma CompletedSettles(endpoints: seq<Endpoint>, es: seq<Event>)
    requires AllDone(Play(Start(endpoints), es))
    ensures !Play(Start(endpoints), es).promise.Pending? <==> endpoints != []
  {
    if endpoints == [] {
      NotBeforeTheLast(endpoints, es);
    } else {
      CompletedFanOut(endpoints, es);
    }
  }

  lemma {:induction false} HarmlessParts(db: Db, ops: seq<Op>, more: seq<Op>)
    requires HarmlessRun(db, ops) && HarmlessRun(Run(db, ops), more)
    ensures HarmlessRun(db, ops + more) && Run(db, ops + more) == Run(Run(db, ops), more)
    decreases |ops|
  {
    if ops == [] {
      assert ops + more == more;
    } else {
      assert (ops + more)[1..] == ops[1..] + more;
      HarmlessParts(Apply(db, ops[0]), ops[1..], more);
    }
  }

  /**
    A send reads the switch first and the table later; `between` is what happens in the meantime.
    Whatever that is, its promise settles once all its sends have exactly if the user still has a
    subscription at the second read. If all operations were harmless he has one if he is still
    enabled then.
   */
  lemma SendAcrossReads(ops: seq<Op>, between: seq<Op>, user: UserId, endpoints: seq<Endpoint>, es: seq<Event>)
    requires ListsSubscriptions(Run(Run(EMPTY, ops), between), user, endpoints)
    requires AllDone(Play(Start(endpoints), es))
    ensures var second := Run(Run(EMPTY, ops), between);
            && (!Play(Start(endpoints), es).promise.Pending? <==> HasSubscription(second, user))
            && (HarmlessRun(EMPTY, ops) && HarmlessRun(Run(EMPTY, ops), between) && IsEnabled(second, user) ==>
                  HasSubscription(second, user))
  {
    CompletedSettles(endpoints, es);
    ListsSome(Run(Run(EMPTY, ops), between), user, endpoints);
    if HarmlessRun(EMPTY, ops) && HarmlessRun(Run(EMPTY, ops), between) {
      HarmlessParts(EMPTY, ops, between);
      RunKeepsReachable(EMPTY, ops + between);
    }
  }

  /** So a send whose two reads nothing separates always settles once its sends have. */
  lemma EnabledSendSettles(ops: seq<Op>, user: UserId, endpoints: seq<Endpoint>, es: seq<Event>)
    requires HarmlessRun(EMPTY, ops)
    requires IsEnabled(Run(EMPTY, ops), user) && ListsSubscriptions(Run(EMPTY, ops), user, endpoints)
    requires AllDone(Play(Start(endpoints), es))
    ensures endpoints != [] && !Play(Start(endpoints), es).promise.Pending?
  {
    SendAcrossReads(ops, [], user, endpoints, es);
    CompletedSettles(endpoints, es);
  }

  /** No removal of an endpoint of the user. */
  predicate Untouched(db: Db, ops: seq<Op>, user: UserId)
    decreases |ops|
  {
    ops == [] ||
    (!(ops[0].OpRemove? && ops[0].endpoint in db.subscriptions && db.subscriptions[ops[0].endpoint] == user)
     && Untouched(Apply(db, ops[0]), ops[1..], user))
  }

  /** A send can only hang if an endpoint of the user was removed between the reads. */
  lemma {:induction false} UntouchedKeepsSubscription(db: Db, ops: seq<Op>, user: UserId)
    requires HasSubscription(db, user) && Untouched(db, ops, user)
    ensures HasSubscription(Run(db, ops), user)
    decreases |ops|
  {
    if ops != [] {
      var e :| e in db.subscriptions && db.subscriptions[e] == user;
      assert Apply(db, ops[0]).subscriptions[e] == user;
      UntouchedKeepsSubscription(Apply(db, ops[0]), ops[1..], user);
    }
  }

  /** The clean-up of dead endpoints: one removal each, on behalf of the user who was being sent to. */
  function RemoveAll(db: Db, dead: seq<Endpoint>, user: UserId): Db
    decreases |dead|
  {
    if dead == [] then db else RemoveAll(Remove(db, dead[0], user), dead[1..], user)
  }

  /** It takes away exactly the dead endpoints, switches the user off if there was one, and strands nobody. */
  lemma {:induction false} CleanUp(db: Db, dead: seq<Endpoint>, user: UserId)
    requires Reachable(db) && forall e <- dead | e in db.subscriptions :: db.subscriptions[e] == user
    ensures var db' := RemoveAll(db, dead, user);
            && db'.subscriptions == db.subscriptions - (set e | e in dead)
            && Reachable(db')
            && (IsEnabled(db', user) <==> IsEnabled(db, user) && forall e <- dead :: e !in db.subscriptions)
            && forall u | u != user :: IsEnabled(db', u) == IsEnabled(db, u)
    decreases |dead|
  {
    if dead != [] {
      var db1 := Remove(db, dead[0], user);
      RemoveKeepsReachable(db, dead[0], user);
      CleanUp(db1, dead[1..], user);
      assert (set e | e in dead) == {dead[0]} + (set e | e in dead[1..]);
      assert forall e :: e in dead <==> e == dead[0] || e in dead[1..];
    }
  }

  /**
    The owner of one endpoint unsubscribes between the two reads: the fan-out starts with nothing and
    never settles.
   */
  lemma CheckThenReadGap(e: Endpoint, user: UserId, es: seq<Event>)
    ensures var first := Run(EMPTY, [OpAdd(e, user)]);
            var second := Run(first, [OpRemove(e, user)]);
            && OwnerRemoves(EMPTY, [OpAdd(e, user)]) && OwnerRemoves(first, [OpRemove(e, user)])
            && IsEnabled(first, user) && ListsSubscriptions(second, user, [])
            && Play(Start([]), es).promise.Pending?
  {
    EmptyNeverMoves(Start([]), es);
  }

  /** A user without an endpoint switches notifications on: the next send to him never settles. */
  lemma SwitchedOnWithoutEndpoint(user: UserId, es: seq<Event>)
    ensures var db := Run(EMPTY, [OpSwitch(user, true)]);
            IsEnabled(db, user) && ListsSubscriptions(db, user, []) && Play(Start([]), es).promise.Pending?
  {
    EmptyNeverMoves(Start([]), es);
  }

  /** A user's only endpoint is removed for somebody else: he stays enabled with nothing to send to. */
  lemma StrangerRemoves(e: Endpoint, owner: UserId, stranger: UserId)
    requires owner != stranger
    ensures var db := Run(EMPTY, [OpAdd(e, owner)]);
            && !RemovalIsHarmless(db, e, stranger)
            && IsEnabled(Remove(db, e, stranger), owner) && !HasSubscription(Remove(db, e, stranger), owner)
  {
    assert Add(EMPTY, e, owner) == Db(map[e := owner], map[owner := true]);
  }

  // ---------- Imperative form ----------

  class SubscriptionTable {
    var subscriptions: map<Endpoint, UserId>
    var pushEnabled: map<UserId, bool>

    ghost function Model(): Db
      reads this
    {
      Db(subscriptions, pushEnabled)
    }

    method AddSubscription(endpoint: Endpoint, user: UserId) returns (owner: UserId)
      modifies this
      ensures Model() == Add(old(Model()), endpoint, user)
      ensures endpoint in subscriptions && owner == subscriptions[endpoint]
    {
      if endpoint !in subscriptions {
        subscriptions := subscriptions[endpoint := user];
        pushEnabled := pushEnabled[user := true];
      }
      owner := subscriptions[endpoint];
    }

    method RemoveSubscription(endpoint: Endpoint, user: UserId) returns (ok: bool)
      modifies this
      ensures ok == (endpoint in old(subscriptions))
      ensures Model() == Remove(old(Model()), endpoint, user)
    {
      if endpoint !in subscriptions { return false; }
      subscriptions := subscriptions - {endpoint};
      pushEnabled := pushEnabled[user := false];
      return true;
    }

    /** updateUserSettings, as far as it writes the switch. */
    method UpdateUserSettings(user: UserId, on: bool)
      modifies this
      ensures Model() == Switch(old(Model()), user, on)
    {
      pushEnabled := pushEnabled[user := on];
    }
  }

  /** The shared state of one fan-out and the callbacks that update it. */
  class FanOutJoin {
    const subscriptions: seq<Endpoint>
    var count: nat
    var successEndpoints: seq<Endpoint>
    var failureEndpoints: seq<Endpoint>
    var promise: Promise
    ghost var model: FanOut

    ghost predicate Valid()
      reads this
    {
      && model.endpoints == subscriptions && model.count == count && |model.phase| == |subscriptions|
      && model.success == successEndpoints && model.failure == failureEndpoints && model.promise == promise
    }

    constructor (subscriptions: seq<Endpoint>)
      ensures Valid() && model == Start(subscriptions)
    {
      this.subscriptions := subscriptions;
      count, successEndpoints, failureEndpoints, promise := 0, [], [], Pending;
      model := Start(subscriptions);
    }

    method OnThen(i: nat)
      requires Valid() && i < |subscriptions| && model.phase[i].Sending?
      modifies this
      ensures Valid() && model == Step(old(model), Settle(i, Delivered))
    {
      successEndpoints := successEndpoints + [subscriptions[i]];
      model := Step(model, Settle(i, Delivered));
    }

    /** Returns whether the subscription is to be removed. */
    method OnCatch(i: nat, outcome: Outcome) returns (remove: bool)
      requires Valid() && i < |subscriptions| && model.phase[i].Sending? && !outcome.Delivered?
      modifies this
      ensures Valid() && model == Step(old(model), Settle(i, outcome))
      ensures remove == outcome.Gone?
    {
      failureEndpoints := failureEndpoints + [subscriptions[i]];
      remove := outcome.Gone?;
      if !remove && promise.Pending? {
        promise := Rejected(outcome.error);
      }
      model := Step(model, Settle(i, outcome));
    }

    method OnFinally(i: nat)
      requires Valid() && i < |subscriptions| && model.phase[i].Settled?
      modifies this
      ensures Valid() && model == Step(old(model), Finally(i))
    {
      count := count + 1;
      if count == |subscriptions| && promise.Pending? {
        promise := Resolved(successEndpoints, failureEndpoints);
      }
      model := Step(model, Finally(i));
    }
  }
}
