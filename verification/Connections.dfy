/**
  The socket registry of the chat service: a map from users to the array of their sockets, in which
  a user who has left may keep an empty array.

  First the registry and its operations; then the gateway, in which a socket waits for its
  authentication before it is added, and may be gone by then.
 */
module Connections {

  type UserId = nat
  type SocketId = string
  type Registry = map<UserId, seq<SocketId>>

  datatype Op =
    | Connect(user: UserId, socket: SocketId)
    | Disconnect(user: UserId, socket: SocketId)
    | Logout(user: UserId)

  // ---------- The registry ----------

  function Filter(sockets: seq<SocketId>, gone: SocketId): seq<SocketId> {
    if sockets == [] then []
    else if sockets[0] != gone then [sockets[0]] + Filter(sockets[1..], gone)
    else Filter(sockets[1..], gone)
  }

  function SocketsOf(r: Registry, user: UserId): seq<SocketId> {
    if user in r then r[user] else []
  }

  function Apply(r: Registry, op: Op): Registry {
    match op
    case Connect(user, socket) => r[user := SocketsOf(r, user) + [socket]]
    case Disconnect(user, socket) => if SocketsOf(r, user) != [] then r[user := Filter(r[user], socket)] else r
    case Logout(user) => r - {user}
  }

  function Run(r: Registry, ops: seq<Op>): Registry
    decreases |ops|
  {
    if ops == [] then r else Run(Apply(r, ops[0]), ops[1..])
  }

  predicate IsOnline(r: Registry, user: UserId) { SocketsOf(r, user) != [] }

  // ---------- What it stands for: the live connections, in connect order ----------

  datatype Connection = Connection(user: UserId, socket: SocketId)

  function Without(live: seq<Connection>, gone: set<Connection>): seq<Connection> {
    if live == [] then []
    else if live[0] in gone then Without(live[1..], gone)
    else [live[0]] + Without(live[1..], gone)
  }

  function LiveApply(live: seq<Connection>, op: Op): seq<Connection> {
    match op
    case Connect(user, socket) => live + [Connection(user, socket)]
    case Disconnect(user, socket) => Without(live, {Connection(user, socket)})
    case Logout(user) => Without(live, set c | c in live && c.user == user)
  }

  function LiveRun(live: seq<Connection>, ops: seq<Op>): seq<Connection>
    decreases |ops|
  {
    if ops == [] then live else LiveRun(LiveApply(live, ops[0]), ops[1..])
  }

  /** The sockets of one user, in connect order. */
  function Of(live: seq<Connection>, user: UserId): seq<SocketId> {
    if live == [] then []
    else if live[0].user == user then [live[0].socket] + Of(live[1..], user)
    else Of(live[1..], user)
  }

  ghost predicate Represents(r: Registry, live: seq<Connection>) {
    forall u :: SocketsOf(r, u) == Of(live, u)
  }

  lemma {:induction false} OfSnoc(live: seq<Connection>, c: Connection, user: UserId)
    ensures Of(live + [c], user) == if c.user == user then Of(live, user) + [c.socket] else Of(live, user)
  {
    if live == [] {
      assert [c][1..] == [];
    } else {
      assert (live + [c])[1..] == live[1..] + [c];
      OfSnoc(live[1..], c, user);
    }
  }

  lemma {:induction false} OfWithoutSocket(live: seq<Connection>, user: UserId, socket: SocketId, u: UserId)
    ensures Of(Without(live, {Connection(user, socket)}), u) ==
        if u == user then Filter(Of(live, u), socket) else Of(live, u)
  {
    if live != [] {
      OfWithoutSocket(live[1..], user, socket, u);
      var rest := Without(live[1..], {Connection(user, socket)});
      assert ([live[0]] + rest)[1..] == rest;
      assert ([live[0].socket] + Of(live[1..], u))[1..] == Of(live[1..], u);
    }
  }

  lemma {:induction false} OfWithoutUser(live: seq<Connection>, gone: set<Connection>, user: UserId, u: UserId)
    requires forall c <- live :: c in gone <==> c.user == user
    ensures Of(Without(live, gone), u) == if u == user then [] else Of(live, u)
  {
    if live != [] {
      OfWithoutUser(live[1..], gone, user, u);
      var rest := Without(live[1..], gone);
      assert live[0] in live;
      assert ([live[0]] + rest)[1..] == rest;
    }
  }

  lemma StepRepresents(r: Registry, live: seq<Connection>, op: Op)
    requires Represents(r, live)
    ensures Represents(Apply(r, op), LiveApply(live, op))
  {
    forall u ensures SocketsOf(Apply(r, op), u) == Of(LiveApply(live, op), u) {
      assert SocketsOf(r, u) == Of(live, u);
      match op
      case Connect(user, socket) => OfSnoc(live, Connection(user, socket), u);
      case Disconnect(user, socket) =>
        assert SocketsOf(r, user) == Of(live, user);
        OfWithoutSocket(live, user, socket, u);
      case Logout(user) => OfWithoutUser(live, (set c | c in live && c.user == user), user, u);
    }
  }

  /** The registry refines the list of live connections, over every run. */
  lemma {:induction false} RunRepresents(r: Registry, live: seq<Connection>, ops: seq<Op>)
    requires Represents(r, live)
    ensures Represents(Run(r, ops), LiveRun(live, ops))
    decreases |ops|
  {
    if ops != [] {
      StepRepresents(r, live, ops[0]);
      RunRepresents(Apply(r, ops[0]), LiveApply(live, ops[0]), ops[1..]);
    }
  }

  // ---------- Each live socket once ----------

  predicate Distinct(live: seq<Connection>) {
    forall i, j | 0 <= i < j < |live| :: live[i].socket != live[j].socket
  }

  lemma {:induction false} WithoutIsExact(live: seq<Connection>, gone: set<Connection>)
    ensures forall c :: c in Without(live, gone) <==> c in live && c !in gone
    ensures Distinct(live) ==> Distinct(Without(live, gone))
  {
    if live != [] {
      var rest := Without(live[1..], gone);
      WithoutIsExact(live[1..], gone);
      assert forall c :: c in live <==> c == live[0] || c in live[1..];
      if Distinct(live) {
        forall j | 0 <= j < |rest| ensures live[0].socket != rest[j].socket {
          assert rest[j] in live[1..];
        }
      }
    }
  }

  function Occurrences(sockets: seq<SocketId>, s: SocketId): nat { multiset(sockets)[s] }

  lemma {:induction false} OfListsOnce(live: seq<Connection>, user: UserId, s: SocketId)
    requires Distinct(live)
    ensures Occurrences(Of(live, user), s) == if Connection(user, s) in live then 1 else 0
  {
    if live != [] {
      OfListsOnce(live[1..], user, s);
      assert live == [live[0]] + live[1..];
      if live[0].user == user {
        assert Of(live, user) == [live[0].socket] + Of(live[1..], user);
        if live[0].socket == s {
          assert Connection(user, s) !in live[1..];
        }
      }
    }
  }

  // ---------- The admin's count ----------

  predicate HasLive(live: seq<Connection>, user: UserId) { exists c <- live :: c.user == user }

  function OnlineUsers(r: Registry): set<UserId> { set u | u in r && r[u] != [] }

  function LiveUsers(live: seq<Connection>): set<UserId> { set c | c in live :: c.user }

  lemma {:induction false} OfEmpty(live: seq<Connection>, user: UserId)
    ensures Of(live, user) != [] <==> HasLive(live, user)
  {
    if live != [] {
      OfEmpty(live[1..], user);
      assert forall c :: c in live <==> c == live[0] || c in live[1..];
    }
  }

  lemma OnlineUsersAreLive(r: Registry, live: seq<Connection>)
    requires Represents(r, live)
    ensures OnlineUsers(r) == LiveUsers(live)
  {
    forall u ensures u in OnlineUsers(r) <==> u in LiveUsers(live) {
      assert SocketsOf(r, u) == Of(live, u);
      OfEmpty(live, u);
    }
  }

  // ---------- The gateway: connecting takes an await ----------

  /**
    `open` and `joining` are the sockets the transport has open and those whose authentication is
    under way. The other fields but the registry are a history: sockets seen, connections added,
    those logged out since, those not taken away since, and of these the ones whose socket was open
    and was gone when they were added.
   */
  datatype Gateway = Gateway(
    registry: Registry,
    open: map<SocketId, UserId>,
    joining: map<SocketId, UserId>,
    seen: set<SocketId>,
    added: set<Connection>,
    loggedOut: set<Connection>,
    listed: seq<Connection>,
    live: seq<Connection>,
    stale: set<Connection>)

  const START := Gateway(map[], map[], map[], {}, {}, {}, [], [], {})

  datatype Event =
    | Arrive(user: UserId, socket: SocketId) // the transport opens; authentication starts
    | Authenticated(socket: SocketId)        // ... and succeeds: the socket is added
    | Refused(socket: SocketId)              // ... or fails
    | Leave(socket: SocketId)                // the transport closes
    | LogOut(user: UserId)                   // of all sockets
    | LogOutSocket(user: UserId, socket: SocketId)

  function Register(y: Gateway, op: Op): Gateway {
    y.(registry := Apply(y.registry, op), listed := LiveApply(y.listed, op))
  }

  function OfUser(live: seq<Connection>, user: UserId): set<Connection> { set c | c in live && c.user == user }

  /** A socket id that has been seen is not given out again. */
  function Step(y: Gateway, e: Event): Gateway {
    match e
    case Arrive(user, s) =>
      if s in y.seen then y else y.(open := y.open[s := user], joining := y.joining[s := user], seen := y.seen + {s})
    case Authenticated(s) =>
      if s !in y.joining then y
      else
        var c := Connection(y.joining[s], s);
        var z := Register(y, Connect(c.user, s)).(joining := y.joining - {s}, added := y.added + {c});
        if s in y.open then z.(live := y.live + [c]) else z.(stale := y.stale + {c})
    case Refused(s) => y.(joining := y.joining - {s})
    case Leave(s) =>
      if s !in y.open then y
      else
        var c := Connection(y.open[s], s);
        Register(y, Disconnect(c.user, s)).(open := y.open - {s}, live := Without(y.live, {c}))
    case LogOut(user) =>
      Register(y, Logout(user)).(live := Without(y.live, OfUser(y.live, user)),
                                 stale := (set c | c in y.stale && c.user != user),
                                 loggedOut := y.loggedOut + (set c | c in y.added && c.user == user))
    case LogOutSocket(user, s) =>
      var c := Connection(user, s);
      Register(y, Disconnect(user, s)).(live := Without(y.live, {c}), stale := y.stale - {c},
                                        loggedOut := y.loggedOut + (if c in y.added then {c} else {}))
  }

  function Play(y: Gateway, es: seq<Event>): Gateway
    decreases |es|
  {
    if es == [] then y else Play(Step(y, es[0]), es[1..])
  }

  /**
    Every socket is listed at most once, after its authentication, and is stale exactly if the transport
    has closed it.
   */
  ghost predicate Sockets(open: map<SocketId, UserId>, joining: map<SocketId, UserId>, seen: set<SocketId>,
                          listed: seq<Connection>, stale: set<Connection>)
  {
    && Distinct(listed)
    && open.Keys <= seen && joining.Keys <= seen
    && (forall s <- joining :: s in open ==> open[s] == joining[s])
    && (forall c <- listed ::
        c.socket in seen && c.socket !in joining && (c.socket in open ==> open[c.socket] == c.user))
    && (forall c <- listed :: c.socket in open <==> c !in stale)
    && (forall c <- stale :: c in listed)
  }

  /** A connection is added once. What is listed was added and not logged out; what was and is still open is listed. */
  ghost predicate Additions(open: map<SocketId, UserId>, joining: map<SocketId, UserId>, seen: set<SocketId>,
                            added: set<Connection>, loggedOut: set<Connection>, listed: seq<Connection>)
  {
    && (forall c <- added :: c.socket in seen && c.socket !in joining)
    && loggedOut <= added
    && (forall c <- listed :: c in added && c !in loggedOut)
    && (forall c <- added | c !in loggedOut && c.socket in open :: c in listed)
    && (forall c <- added | c.socket in open :: open[c.socket] == c.user)
  }

  ghost predicate Sound(y: Gateway) {
    && Represents(y.registry, y.listed)
    && Sockets(y.open, y.joining, y.seen, y.listed, y.stale)
    && Additions(y.open, y.joining, y.seen, y.added, y.loggedOut, y.listed)
    && y.live == Without(y.listed, y.stale)
  }

  lemma {:induction false} WithoutTwice(live: seq<Connection>, a: set<Connection>, b: set<Connection>)
    ensures Without(Without(live, a), b) == Without(live, a + b)
  {
    if live != [] {
      WithoutTwice(live[1..], a, b);
      var rest := Without(live[1..], a);
      assert live[0] !in a ==> ([live[0]] + rest)[1..] == rest;
    }
  }

  lemma {:induction false} WithoutSame(live: seq<Connection>, a: set<Connection>, b: set<Connection>)
    requires forall c <- live :: c in a <==> c in b
    ensures Without(live, a) == Without(live, b)
  {
    if live != [] {
      assert live[0] in live;
      WithoutSame(live[1..], a, b);
    }
  }

  lemma {:induction false} WithoutSnoc(live: seq<Connection>, c: Connection, gone: set<Connection>)
    ensures Without(live + [c], gone) == if c in gone then Without(live, gone) else Without(live, gone) + [c]
  {
    if live == [] {
      assert [c][1..] == [];
    } else {
      assert (live + [c])[1..] == live[1..] + [c];
      WithoutSnoc(live[1..], c, gone);
    }
  }

  lemma DistinctSnoc(live: seq<Connection>, c: Connection)
    requires Distinct(live) && forall x <- live :: x.socket != c.socket
    ensures Distinct(live + [c])
  {
    assert forall i | 0 <= i < |live| :: live[i] in live;
  }

  lemma AuthenticatedSound(y: Gateway, s: SocketId)
    requires Sound(y) && s in y.joining
    ensures Sound(Step(y, Authenticated(s)))
  {
    var c := Connection(y.joining[s], s);
    StepRepresents(y.registry, y.listed, Connect(c.user, s));
    DistinctSnoc(y.listed, c);
    assert c !in y.listed;
    if s in y.open {
      WithoutSnoc(y.listed, c, y.stale);
    } else {
      WithoutSnoc(y.listed, c, y.stale + {c});
      WithoutSame(y.listed, y.stale, y.stale + {c});
    }
  }

  lemma LeaveSound(y: Gateway, s: SocketId)
    requires Sound(y) && s in y.open
    ensures Sound(Step(y, Leave(s)))
  {
    var c := Connection(y.open[s], s);
    StepRepresents(y.registry, y.listed, Disconnect(c.user, s));
    WithoutIsExact(y.listed, {c});
    WithoutTwice(y.listed, y.stale, {c});
    WithoutTwice(y.listed, {c}, y.stale);
    assert y.stale + {c} == {c} + y.stale;
  }

  lemma LogOutSound(y: Gateway, user: UserId)
    requires Sound(y)
    ensures Sound(Step(y, LogOut(user)))
  {
    var stale' := set c | c in y.stale && c.user != user;
    StepRepresents(y.registry, y.listed, Logout(user));
    WithoutIsExact(y.listed, OfUser(y.listed, user));
    WithoutIsExact(y.listed, y.stale);
    WithoutTwice(y.listed, y.stale, OfUser(y.live, user));
    WithoutTwice(y.listed, OfUser(y.listed, user), stale');
    WithoutSame(y.listed, y.stale + OfUser(y.live, user), OfUser(y.listed, user) + stale');
  }

  lemma LogOutSocketSound(y: Gateway, user: UserId, s: SocketId)
    requires Sound(y)
    ensures Sound(Step(y, LogOutSocket(user, s)))
  {
    var c := Connection(user, s);
    StepRepresents(y.registry, y.listed, Disconnect(user, s));
    WithoutIsExact(y.listed, {c});
    WithoutTwice(y.listed, y.stale, {c});
    WithoutTwice(y.listed, {c}, y.stale - {c});
    WithoutSame(y.listed, y.stale + {c}, {c} + (y.stale - {c}));
  }

  lemma {:induction false} PlaySound(y: Gateway, es: seq<Event>)
    requires Sound(y)
    ensures Sound(Play(y, es))
    decreases |es|
  {
    if es != [] {
      match es[0] {
        case Arrive(_, _) =>
        case Authenticated(s) => if s in y.joining { AuthenticatedSound(y, s); }
        case Refused(_) =>
        case Leave(s) => if s in y.open { LeaveSound(y, s); }
        case LogOut(user) => LogOutSound(y, user);
        case LogOutSocket(user, s) => LogOutSocketSound(y, user, s);
      }
      PlaySound(Step(y, es[0]), es[1..]);
    }
  }

  /**
    What an event does to the array of a user: his authenticated socket goes to the end, one that
    leaves or logs out goes away, a logout of all empties it, and nothing else has any effect.
   */
  lemma StepOnArray(y: Gateway, e: Event, user: UserId)
    ensures var before, after := SocketsOf(y.registry, user), SocketsOf(Step(y, e).registry, user);
            match e
            case Authenticated(s) => after == if s in y.joining && y.joining[s] == user then before + [s] else before
            case Leave(s) => after == if s in y.open && y.open[s] == user then Filter(before, s) else before
            case LogOut(u) => after == if u == user then [] else before
            case LogOutSocket(u, s) => after == if u == user then Filter(before, s) else before
            case _ => after == before
  {
  }

  /** What the transport and the authentication know after an event. */
  lemma StepOnTransport(y: Gateway, e: Event)
    ensures var z := Step(y, e);
            && z.open == (match e
                          case Arrive(u, s) => if s in y.seen then y.open else y.open[s := u]
                          case Leave(s) => y.open - {s}
                          case _ => y.open)
            && z.joining == (match e
                             case Arrive(u, s) => if s in y.seen then y.joining else y.joining[s := u]
                             case Authenticated(s) => y.joining - {s}
                             case Refused(s) => y.joining - {s}
                             case _ => y.joining)
  {
  }

  // ---------- Main results ----------

  /**
    After every run: the array of a user lists each of his live sockets once, and otherwise only
    stale ones; he is online exactly if he has one or the other, and the users counted are those,
    although the map may hold empty arrays. Live are exactly the sockets that were added after their
    authentication, are open in the transport and have not been logged out; stale ones are not open.
   */
  lemma EveryRun(es: seq<Event>, user: UserId, s: SocketId)
    ensures var y := Play(START, es);
            var c := Connection(user, s);
            && Occurrences(SocketsOf(y.registry, user), s) == (if c in y.live || c in y.stale then 1 else 0)
            && (IsOnline(y.registry, user) <==> HasLive(y.live, user) || exists x <- y.stale :: x.user == user)
            && OnlineUsers(y.registry) == LiveUsers(y.live) + (set x <- y.stale :: x.user)
            && (c in y.live <==> c in y.added && c !in y.loggedOut && s in y.open)
            && (c in y.stale ==> c in y.added && c !in y.loggedOut && s !in y.open)
  {
    PlaySound(START, es);
    var y := Play(START, es);
    var c := Connection(user, s);
    WithoutIsExact(y.listed, y.stale);
    assert SocketsOf(y.registry, user) == Of(y.listed, user);
    OfListsOnce(y.listed, user, s);
    OfEmpty(y.listed, user);
    OnlineUsersAreLive(y.registry, y.listed);
    assert c in y.listed <==> c in y.live || c in y.stale;
    assert LiveUsers(y.listed) == LiveUsers(y.live) + (set x <- y.stale :: x.user);
  }

  lemma {:induction false} OfHas(live: seq<Connection>, c: Connection)
    ensures c in live <==> c.socket in Of(live, c.user)
  {
    if live != [] {
      OfHas(live[1..], c);
      assert c in live <==> c == live[0] || c in live[1..];
    }
  }

  /**
    After every run the array of a user is his live sockets in the order they were added exactly if
    none of his sockets is stale, that is, none was added after its own disconnect.
   */
  lemma AgreesExactly(es: seq<Event>, user: UserId)
    ensures var y := Play(START, es);
            SocketsOf(y.registry, user) == Of(y.live, user) <==> forall c <- y.stale :: c.user != user
  {
    PlaySound(START, es);
    var y := Play(START, es);
    assert SocketsOf(y.registry, user) == Of(y.listed, user);
    WithoutIsExact(y.listed, y.stale);
    if c :| c in y.stale && c.user == user {
      OfHas(y.listed, c);
      OfHas(y.live, c);
    } else {
      OfWithoutOthers(y.listed, y.stale, user);
    }
  }

  lemma {:induction false} OfWithoutOthers(live: seq<Connection>, gone: set<Connection>, user: UserId)
    requires forall c <- gone :: c.user != user
    ensures Of(Without(live, gone), user) == Of(live, user)
  {
    if live != [] {
      OfWithoutOthers(live[1..], gone, user);
      var rest := Without(live[1..], gone);
      assert ([live[0]] + rest)[1..] == rest;
    }
  }

  /** What makes a socket stale: exactly an addition that finds it gone. Only logging it out takes it away again. */
  lemma StaleExactly(y: Gateway, e: Event, c: Connection)
    requires Sound(y)
    ensures c in Step(y, e).stale <==>
              (c in y.stale && e != LogOut(c.user) && e != LogOutSocket(c.user, c.socket))
              || (e == Authenticated(c.socket) && c.socket in y.joining
                && y.joining[c.socket] == c.user && c.socket !in y.open)
  {
  }

  lemma {:induction false} PlaySnoc(y: Gateway, es: seq<Event>, e: Event)
    ensures Play(y, es + [e]) == Step(Play(y, es), e)
    decreases |es|
  {
    if es == [] {
      assert Play(Step(y, e), []) == Step(y, e);
    } else {
      assert (es + [e])[1..] == es[1..] + [e];
      PlaySnoc(Step(y, es[0]), es[1..], e);
    }
  }

  /** A disconnect that overtakes the authentication: the user stays online for good with no socket open. */
  lemma DisconnectOvertakes(user: UserId, s: SocketId) returns (es: seq<Event>)
    ensures var y := Play(START, es);
            y.open == map[] && y.joining == map[] && y.live == [] && IsOnline(y.registry, user)
  {
    PlaySnoc(START, [], Arrive(user, s));
    PlaySnoc(START, [Arrive(user, s)], Leave(s));
    PlaySnoc(START, [Arrive(user, s)] + [Leave(s)], Authenticated(s));
    es := [Arrive(user, s)] + [Leave(s)] + [Authenticated(s)];
    assert Play(START, [Arrive(user, s)]).open == map[s := user];
  }

  /** A user who logs out counts as offline although his socket stays open. */
  lemma LoggedOutStaysOpen(user: UserId, s: SocketId) returns (es: seq<Event>)
    ensures var y := Play(START, es);
            y.open == map[s := user] && !IsOnline(y.registry, user)
  {
    PlaySnoc(START, [], Arrive(user, s));
    PlaySnoc(START, [Arrive(user, s)], Authenticated(s));
    PlaySnoc(START, [Arrive(user, s)] + [Authenticated(s)], LogOut(user));
    es := [Arrive(user, s)] + [Authenticated(s)] + [LogOut(user)];
  }

  /** A disconnect always announces the user as offline. That is so exactly if he had no other socket. */
  lemma OfflineAnnouncedCorrectly(r: Registry, user: UserId, socket: SocketId)
    ensures !IsOnline(Apply(r, Disconnect(user, socket)), user) <==> forall s <- SocketsOf(r, user) :: s == socket
  {
    FilterIsExact(SocketsOf(r, user), socket);
    if s :| s in SocketsOf(r, user) && s != socket {
      assert s in Filter(SocketsOf(r, user), socket);
    }
  }

  /** A user with two sockets closes one: he is announced as offline and is not. */
  lemma OfflineWithSocketLeft(user: UserId, a: SocketId, b: SocketId)
    requires a != b
    ensures var r := Run(map[], [Connect(user, a), Connect(user, b)]);
            SocketsOf(r, user) == [a, b] && IsOnline(Apply(r, Disconnect(user, a)), user)
  {
    var ops := [Connect(user, a), Connect(user, b)];
    var r1 := Apply(map[], Connect(user, a));
    var r2 := Apply(r1, Connect(user, b));
    assert ops[1..] == [Connect(user, b)] && ops[1..][1..] == [];
    assert Run(map[], ops) == Run(r1, ops[1..]) == Run(r2, ops[1..][1..]) == r2;
    assert r2[user] == [a, b];
    OfflineAnnouncedCorrectly(r2, user, a);
    assert b in SocketsOf(r2, user);
  }

  lemma {:induction false} FilterIsExact(sockets: seq<SocketId>, gone: SocketId)
    ensures forall s :: s in Filter(sockets, gone) <==> s in sockets && s != gone
    ensures Filter(sockets, gone) != [] ==> Filter(sockets, gone)[0] in Filter(sockets, gone)
  {
    if sockets != [] { FilterIsExact(sockets[1..], gone); }
  }

  // ---------- Imperative form ----------

  class UserConnectionService {
    var connectedClients: Registry

    constructor ()
      ensures connectedClients == map[]
    {
      connectedClients := map[];
    }

    method AddConnectedClient(user: UserId, client: SocketId)
      modifies this
      ensures connectedClients == Apply(old(connectedClients), Connect(user, client))
    {
      if user in connectedClients && |connectedClients[user]| > 0 {
        connectedClients := connectedClients[user := connectedClients[user] + [client]];
      } else {
        assert SocketsOf(connectedClients, user) + [client] == [client];
        connectedClients := connectedClients[user := [client]];
      }
    }

    method CheckUserIsConnected(user: UserId) returns (connected: bool)
      ensures connected == IsOnline(connectedClients, user)
    {
      connected := (if user in connectedClients then |connectedClients[user]| else 0) > 0;
    }

    /** Called with a socket on disconnect and on the logout of one socket, without one on the logout of all. */
    method RemoveConnectedClient(user: UserId, hasSocket: bool, socket: SocketId)
      modifies this
      ensures connectedClients ==
          Apply(old(connectedClients), if hasSocket then Disconnect(user, socket) else Logout(user))
    {
      if hasSocket {
        if user in connectedClients && |connectedClients[user]| > 0 {
          connectedClients := connectedClients[user := Filter(connectedClients[user], socket)];
        }
      } else {
        connectedClients := connectedClients - {user};
      }
    }

    method GetConnectedClientsCountForAdmin() returns (count: nat)
      ensures count == |OnlineUsers(connectedClients)|
    {
      count := 0;
      var todo := connectedClients.Keys;
      ghost var counted: set<UserId> := {};
      while todo != {}
        invariant todo <= connectedClients.Keys && count == |counted|
        invariant counted == set u | u in connectedClients && u !in todo && connectedClients[u] != []
        decreases |todo|
      {
        var user :| user in todo;
        todo := todo - {user};
        if |connectedClients[user]| > 0 {
          count := count + 1;
          counted := counted + {user};
        }
      }
      assert counted == OnlineUsers(connectedClients);
    }
  }
}
