/**
  The call-session protocol: request, accept, reject, hang up, disconnect and the auto-cancel
  timer, all racing on one map of active sessions.

  Every `await` is a step boundary: creating or updating the database row, the authentication
  inside the hang-up handler, and the hand-over between storing a new session and arming its
  timer. `Task` says where a suspended handler will go on.
 */
module Calls {
  import opened Common

  type Id = string
  type UserId = nat

  datatype Status = Requesting | Ringing | Accepted | Connected | Ended | Rejected | Cancelled | TimedOut | Busy
      | Offline

  datatype Session = Session(id: Id, status: Status, caller: UserId, callee: UserId)

  type Sessions = map<Id, Session>

  const MAX_RETRY_COUNT := 3
  const CALL_TIMEOUT_MS := 10_000

  // ---------- What the stretches between awaits compute ----------

  /** The retry loop over random ids: the first of three draws that is not active. */
  function Chosen(active: set<Id>, draws: seq<Id>): Option<Id>
    requires |draws| == MAX_RETRY_COUNT
  {
    if draws[0] !in active then Some(draws[0])
    else if draws[1] !in active then Some(draws[1])
    else if draws[2] !in active then Some(draws[2])
    else None
  }

  predicate Unanswered(s: Session) { s.status.Requesting? || s.status.Ringing? }

  predicate Involves(s: Session, user: UserId) { s.caller == user || s.callee == user }

  /** The iteration order of a JavaScript Map is the insertion order. */
  function Without(order: seq<Id>, id: Id): (r: seq<Id>)
    ensures forall x :: x in r <==> x in order && x != id
  {
    if order == [] then []
    else if order[0] == id then Without(order[1..], id)
    else [order[0]] + Without(order[1..], id)
  }

  lemma {:induction false} WithoutDistinct(order: seq<Id>, id: Id)
    requires Distinct(order)
    ensures Distinct(Without(order, id))
  {
    if order != [] {
      WithoutDistinct(order[1..], id);
      var rest := Without(order[1..], id);
      forall i | 0 <= i < |rest| ensures rest[i] != order[0] {
        assert rest[i] in order[1..];
      }
    }
  }

  predicate Distinct(order: seq<Id>) {
    forall i, j | 0 <= i < j < |order| :: order[i] != order[j]
  }

  ghost predicate Ordered(sessions: Sessions, order: seq<Id>) {
    Distinct(order) && (forall x :: x in order <==> x in sessions)
  }

  function FindByUser(sessions: Sessions, order: seq<Id>, user: UserId): Option<Id>
    requires forall x <- order :: x in sessions
  {
    if order == [] then None
    else if Involves(sessions[order[0]], user) then Some(order[0])
    else FindByUser(sessions, order[1..], user)
  }

  /** Entry `i` is the oldest session the user takes part in, as caller or as callee. */
  predicate Oldest(sessions: Sessions, order: seq<Id>, user: UserId, i: nat)
    requires forall x <- order :: x in sessions
  {
    && i < |order| && (sessions[order[i]].caller == user || sessions[order[i]].callee == user)
    && forall j | 0 <= j < i :: sessions[order[j]].caller != user && sessions[order[j]].callee != user
  }

  /** The look-up returns the oldest session of the user, and nothing only if there is none. */
  lemma {:induction false} FindByUserIsOldest(sessions: Sessions, order: seq<Id>, user: UserId)
    requires forall x <- order :: x in sessions
    ensures match FindByUser(sessions, order, user)
            case Some(id) => exists i: nat :: Oldest(sessions, order, user, i) && order[i] == id
            case None => forall x <- order :: sessions[x].caller != user && sessions[x].callee != user
    decreases |order|
  {
    if order != [] {
      if Involves(sessions[order[0]], user) {
        assert Oldest(sessions, order, user, 0);
      } else {
        var rest := order[1..];
        assert forall x <- rest :: x in order;
        FindByUserIsOldest(sessions, rest, user);
        if FindByUser(sessions, rest, user).Some? {
          var i: nat :| Oldest(sessions, rest, user, i) && rest[i] == FindByUser(sessions, order, user).value;
          forall j | 0 <= j < i + 1 ensures !Involves(sessions[order[j]], user) {
            if j > 0 { assert order[j] == rest[j - 1]; }
          }
          assert Oldest(sessions, order, user, i + 1);
        }
      }
    }
  }

  function DropCalling(usersCalling: map<UserId, Id>, user: UserId, id: Id): map<UserId, Id> {
    if user in usersCalling && usersCalling[user] == id then usersCalling - {user} else usersCalling
  }

  /** The end of a call frees exactly its two users, and each only if he is noted for this call. */
  lemma BothAreFreed(usersCalling: map<UserId, Id>, caller: UserId, callee: UserId, id: Id)
    ensures var left := DropCalling(DropCalling(usersCalling, caller, id), callee, id);
            && (forall u :: u in left <==>
                u in usersCalling && !((u == caller || u == callee) && usersCalling[u] == id))
            && (forall u <- left :: left[u] == usersCalling[u])
  {
  }

  // ---------- The protocol as a transition system ----------

  datatype Cause = ByTimer | ByUser

  datatype Task =
    | Creating(id: Id, caller: UserId, callee: UserId) // request: row being created, session not yet in the map
    | Stored(id: Id)                                   // request: session in the map, timer not yet armed
    | Accepting(id: Id)                                // accept: row being updated
    | HangingUp(id: Id)                                // hang-up: authentication under way
    | Ending(id: Id, cause: Cause)                      // end: row being updated, session still in the map

  datatype Timer = Timer(id: Id, due: int)

  type TaskId = nat
  type Tasks = map<TaskId, Task>
  type Timers = map<nat, Timer>

  /** The last three fields are a history: ids drawn, successful accepts, sessions removed. */
  datatype System = System(
    sessions: Sessions,
    order: seq<Id>,
    usersCalling: map<UserId, Id>,
    tasks: Tasks,
    nextTask: TaskId,
    timers: Timers,
    nextTimer: nat,
    now: int,
    issued: set<Id>,
    accepts: seq<Id>,
    ended: set<Id>)

  datatype Event =
    | Request(caller: UserId, callee: UserId, online: bool, draws: seq<Id>)
    | Accept(id: Id)
    | Reject(id: Id)
    | HangUp(id: Id)
    | Disconnect(user: UserId)
    | TimerFires(timer: nat)
    | Resume(task: TaskId)
    | Tick(ms: nat)

  function Spawn(y: System, t: Task): System {
    y.(tasks := y.tasks[y.nextTask := t], nextTask := y.nextTask + 1)
  }

  /** endCall, up to its await; for a session that is not there it throws. */
  function EndCall(y: System, id: Id, cause: Cause): System {
    if id in y.sessions then Spawn(y, Ending(id, cause)) else y
  }

  /** endCall, after its await. */
  function Remove(y: System, id: Id): System {
    if id in y.sessions then
      y.(sessions := y.sessions - {id},
         order := Without(y.order, id),
         usersCalling := DropCalling(DropCalling(y.usersCalling, y.sessions[id].caller, id), y.sessions[id].callee, id),
         ended := y.ended + {id})
    else y
  }

  function Continue(y: System, task: TaskId): System
    requires task in y.tasks
  {
    var z := y.(tasks := y.tasks - {task});
    match y.tasks[task]
    case Creating(id, caller, callee) =>
      y.(tasks := y.tasks[task := Stored(id)],
         sessions := y.sessions[id := Session(id, Requesting, caller, callee)],
         order := if id in y.sessions then y.order else y.order + [id])
    case Stored(id) =>
      z.(timers := y.timers[y.nextTimer := Timer(id, y.now + CALL_TIMEOUT_MS)], nextTimer := y.nextTimer + 1)
    case Accepting(_) => z
    case HangingUp(id) => EndCall(z, id, ByUser)
    case Ending(id, _) => Remove(z, id)
  }

  function Apply(y: System, e: Event): System {
    match e
    case Request(caller, callee, online, draws) =>
      if !online || callee in y.usersCalling || |draws| != MAX_RETRY_COUNT then y
      else
        var r := Chosen(y.sessions.Keys, draws);
        // an id drawn before is not drawn again
        if r.None? || r.value in y.issued then y
        else Spawn(y, Creating(r.value, caller, callee)).(issued := y.issued + {r.value})
    case Accept(id) =>
      if id in y.sessions && Unanswered(y.sessions[id])
      then Spawn(y, Accepting(id)).(sessions := y.sessions[id := y.sessions[id].(status := Accepted)],
        accepts := y.accepts + [id])
      else y
    case Reject(id) => EndCall(y, id, ByUser)
    case HangUp(id) => if id in y.sessions then Spawn(y, HangingUp(id)) else y
    case Disconnect(user) =>
      if forall x <- y.order :: x in y.sessions then
        var r := FindByUser(y.sessions, y.order, user);
        if r.Some? then EndCall(y, r.value, ByUser) else y
      else y
    case TimerFires(t) =>
      if t in y.timers && y.timers[t].due <= y.now then
        var id := y.timers[t].id;
        var z := y.(timers := y.timers - {t});
        if id in y.sessions && Unanswered(y.sessions[id]) then EndCall(z, id, ByTimer) else z
      else y
    case Resume(task) => if task in y.tasks then Continue(y, task) else y
    case Tick(ms) => y.(now := y.now + ms)
  }

  function Run(y: System, es: seq<Event>): System
    decreases |es|
  {
    if es == [] then y else Run(Apply(y, es[0]), es[1..])
  }

  function Initial(now: int): System {
    System(map[], [], map[], map[], 0, map[], 0, now, {}, [], {})
  }

  // ---------- Invariants of every interleaving ----------

  /** Sessions sit under their own id, were drawn, are not ended, and have one of two states. */
  ghost predicate SessionsOk(sessions: Sessions, issued: set<Id>, ended: set<Id>) {
    forall id <- sessions ::
      && sessions[id].id == id && id in issued && id !in ended
      && (sessions[id].status.Requesting? || sessions[id].status.Accepted?)
  }

  ghost predicate TaskOk(t: Task, sessions: Sessions, issued: set<Id>, ended: set<Id>, accepts: seq<Id>) {
    && t.id in issued
    && (t.Creating? ==> t.id !in sessions && t.id !in ended && t.id !in accepts)
  }

  ghost predicate TasksOk(tasks: Tasks, nextTask: TaskId, sessions: Sessions, issued: set<Id>, ended: set<Id>,
                          accepts: seq<Id>)
  {
    && (forall t <- tasks :: t < nextTask && TaskOk(tasks[t], sessions, issued, ended, accepts))
    && (forall t <- tasks, u <- tasks ::
        tasks[t].Creating? && tasks[u].Creating? && tasks[t].id == tasks[u].id ==> t == u)
  }

  ghost predicate TimersOk(timers: Timers, nextTimer: nat, now: int) {
    forall t <- timers :: t < nextTimer && timers[t].due <= now + CALL_TIMEOUT_MS
  }

  /** One accept per id, and an active session is accepted exactly when its id is in the history. */
  ghost predicate AcceptsOk(accepts: seq<Id>, sessions: Sessions, issued: set<Id>) {
    && Distinct(accepts)
    && (forall x <- accepts :: x in issued)
    && (forall id <- sessions :: sessions[id].status.Accepted? <==> id in accepts)
  }

  ghost predicate HasTimer(timers: Timers, id: Id) { exists t <- timers :: timers[t].id == id }

  ghost predicate HasStored(tasks: Tasks, id: Id) { exists t <- tasks :: tasks[t] == Stored(id) }

  ghost predicate HasEnding(tasks: Tasks, id: Id) { exists t <- tasks :: tasks[t].Ending? && tasks[t].id == id }

  /** Nobody is left waiting: a timer will fire, or is about to be armed, or the session is accepted, or being ended. */
  ghost predicate Covered(s: Session, timers: Timers, tasks: Tasks) {
    s.status.Accepted? || HasTimer(timers, s.id) || HasStored(tasks, s.id) || HasEnding(tasks, s.id)
  }

  ghost predicate AllCovered(sessions: Sessions, timers: Timers, tasks: Tasks) {
    forall id <- sessions :: Covered(sessions[id], timers, tasks)
  }

  ghost predicate Safe(y: System) {
    && SessionsOk(y.sessions, y.issued, y.ended)
    && TasksOk(y.tasks, y.nextTask, y.sessions, y.issued, y.ended, y.accepts)
    && TimersOk(y.timers, y.nextTimer, y.now)
    && AcceptsOk(y.accepts, y.sessions, y.issued)
    && AllCovered(y.sessions, y.timers, y.tasks)
    && Ordered(y.sessions, y.order)
    && y.usersCalling == map[]
    && y.ended <= y.issued
  }

  // ---------- Preservation ----------

  /** A task ends or moves on without being one that covers a session. */
  lemma CoveredAfter(sessions: Sessions, timers: Timers, timers': Timers, tasks: Tasks, tasks': Tasks, task: TaskId)
    requires AllCovered(sessions, timers, tasks)
    requires forall t <- timers :: t in timers' && timers'[t] == timers[t]
    requires forall t <- tasks | t != task :: t in tasks' && tasks'[t] == tasks[t]
    requires task in tasks ==> !tasks[task].Stored? && !tasks[task].Ending?
    ensures AllCovered(sessions, timers', tasks')
  {
    forall id <- sessions ensures Covered(sessions[id], timers', tasks') {
      assert Covered(sessions[id], timers, tasks);
    }
  }

  lemma SpawnSafe(y: System, t: Task)
    requires Safe(y) && !t.Creating? && TaskOk(t, y.sessions, y.issued, y.ended, y.accepts)
    ensures Safe(Spawn(y, t))
  {
    CoveredAfter(y.sessions, y.timers, y.timers, y.tasks, Spawn(y, t).tasks, y.nextTask);
  }

  lemma EndCallSafe(y: System, id: Id, cause: Cause)
    requires Safe(y)
    ensures Safe(EndCall(y, id, cause))
  {
    if id in y.sessions {
      SpawnSafe(y, Ending(id, cause));
    }
  }

  lemma DropTaskSafe(y: System, task: TaskId)
    requires Safe(y) && task in y.tasks && !y.tasks[task].Stored? && !y.tasks[task].Ending?
    ensures Safe(y.(tasks := y.tasks - {task}))
  {
    CoveredAfter(y.sessions, y.timers, y.timers, y.tasks, y.tasks - {task}, task);
  }

  lemma RequestSafe(y: System, id: Id, caller: UserId, callee: UserId)
    requires Safe(y) && id !in y.issued
    ensures Safe(Spawn(y, Creating(id, caller, callee)).(issued := y.issued + {id}))
  {
    CoveredAfter(y.sessions, y.timers, y.timers, y.tasks, Spawn(y, Creating(id, caller, callee)).tasks, y.nextTask);
  }

  lemma CreateSafe(y: System, task: TaskId)
    requires Safe(y) && task in y.tasks && y.tasks[task].Creating?
    ensures Safe(Continue(y, task))
  {
    var Creating(id, caller, callee) := y.tasks[task];
    var z := Continue(y, task);
    CoveredAfter(y.sessions, y.timers, y.timers, y.tasks, z.tasks, task);
    assert z.tasks[task] == Stored(id);
    assert HasStored(z.tasks, id);
    assert id !in y.order;
  }

  lemma ArmSafe(y: System, task: TaskId)
    requires Safe(y) && task in y.tasks && y.tasks[task].Stored?
    ensures Safe(Continue(y, task))
  {
    var id := y.tasks[task].id;
    var z := Continue(y, task);
    assert z.timers[y.nextTimer].id == id;
    assert HasTimer(z.timers, id);
    forall x <- z.sessions ensures Covered(z.sessions[x], z.timers, z.tasks) {
      assert Covered(y.sessions[x], y.timers, y.tasks);
      if x != id {
        if HasTimer(y.timers, x) {
          var t :| t in y.timers && y.timers[t].id == x;
          assert z.timers[t].id == x;
        } else if HasStored(y.tasks, x) {
          var t :| t in y.tasks && y.tasks[t] == Stored(x);
          assert z.tasks[t] == Stored(x);
        } else if HasEnding(y.tasks, x) {
          var t :| t in y.tasks && y.tasks[t].Ending? && y.tasks[t].id == x;
          assert z.tasks[t].Ending?;
        }
      }
    }
  }

  lemma CoveredAfterEnding(s: Session, timers: Timers, tasks: Tasks, task: TaskId)
    requires Covered(s, timers, tasks) && task in tasks && tasks[task].Ending? && tasks[task].id != s.id
    ensures Covered(s, timers, tasks - {task})
  {
    var tasks' := tasks - {task};
    if HasStored(tasks, s.id) {
      var t :| t in tasks && tasks[t] == Stored(s.id);
      assert tasks'[t] == Stored(s.id);
    } else if HasEnding(tasks, s.id) {
      var t :| t in tasks && tasks[t].Ending? && tasks[t].id == s.id;
      assert tasks'[t].Ending?;
    }
  }

  lemma RemovedCovered(sessions: Sessions, timers: Timers, tasks: Tasks, task: TaskId)
    requires AllCovered(sessions, timers, tasks) && task in tasks && tasks[task].Ending?
    requires forall x <- sessions :: sessions[x].id == x
    ensures AllCovered(sessions - {tasks[task].id}, timers, tasks - {task})
  {
    forall x <- sessions - {tasks[task].id} ensures Covered(sessions[x], timers, tasks - {task}) {
      CoveredAfterEnding(sessions[x], timers, tasks, task);
    }
  }

  lemma RemoveSafe(y: System, task: TaskId)
    requires Safe(y) && task in y.tasks && y.tasks[task].Ending?
    ensures Safe(Continue(y, task))
  {
    var id := y.tasks[task].id;
    WithoutDistinct(y.order, id);
    RemovedCovered(y.sessions, y.timers, y.tasks, task);
    if id !in y.sessions { assert y.sessions - {id} == y.sessions; }
  }

  lemma ContinueSafe(y: System, task: TaskId)
    requires Safe(y) && task in y.tasks
    ensures Safe(Continue(y, task))
  {
    match y.tasks[task]
    case Creating(_, _, _) => CreateSafe(y, task);
    case Stored(_) => ArmSafe(y, task);
    case Accepting(_) => DropTaskSafe(y, task);
    case HangingUp(id) =>
      DropTaskSafe(y, task);
      EndCallSafe(y.(tasks := y.tasks - {task}), id, ByUser);
    case Ending(_, _) => RemoveSafe(y, task);
  }

  lemma AcceptedTasks(tasks: Tasks, nextTask: TaskId, sessions: Sessions, issued: set<Id>, ended: set<Id>,
                      accepts: seq<Id>,
                      id: Id, session: Session)
    requires TasksOk(tasks, nextTask, sessions, issued, ended, accepts) && id in sessions && id in issued
    ensures TasksOk(tasks[nextTask := Accepting(id)], nextTask + 1, sessions[id := session], issued, ended,
        accepts + [id])
  {
    var tasks' := tasks[nextTask := Accepting(id)];
    forall t <- tasks' ensures t < nextTask + 1
        && TaskOk(tasks'[t], sessions[id := session], issued, ended, accepts + [id]) {
      if t != nextTask { assert TaskOk(tasks[t], sessions, issued, ended, accepts); }
    }
  }

  lemma AcceptedCovered(sessions: Sessions, timers: Timers, tasks: Tasks, nextTask: TaskId, id: Id)
    requires AllCovered(sessions, timers, tasks) && nextTask !in tasks && id in sessions
    ensures AllCovered(sessions[id := sessions[id].(status := Accepted)], timers, tasks[nextTask := Accepting(id)])
  {
    CoveredAfter(sessions, timers, timers, tasks, tasks[nextTask := Accepting(id)], nextTask);
  }

  lemma AcceptSafe(y: System, id: Id)
    requires Safe(y)
    ensures Safe(Apply(y, Accept(id)))
  {
    if id in y.sessions && Unanswered(y.sessions[id]) {
      AcceptedTasks(y.tasks, y.nextTask, y.sessions, y.issued, y.ended, y.accepts, id,
        y.sessions[id].(status := Accepted));
      AcceptedCovered(y.sessions, y.timers, y.tasks, y.nextTask, id);
      assert y.sessions[id := y.sessions[id].(status := Accepted)].Keys == y.sessions.Keys;
    }
  }

  /** A timer is gone whose call is answered, over, or being ended. */
  lemma FiredCovered(sessions: Sessions, timers: Timers, tasks: Tasks, tasks': Tasks, t: nat)
    requires AllCovered(sessions, timers, tasks) && t in timers && forall id <- sessions :: sessions[id].id == id
    requires forall u <- tasks :: u in tasks' && tasks'[u] == tasks[u]
    requires timers[t].id in sessions ==> sessions[timers[t].id].status.Accepted? || HasEnding(tasks', timers[t].id)
    ensures AllCovered(sessions, timers - {t}, tasks')
  {
    forall x <- sessions ensures Covered(sessions[x], timers - {t}, tasks') {
      assert Covered(sessions[x], timers, tasks);
      if x != timers[t].id && HasTimer(timers, x) {
        var u :| u in timers && timers[u].id == x;
        assert (timers - {t})[u].id == x;
      } else if HasStored(tasks, x) {
        var u :| u in tasks && tasks[u] == Stored(x);
        assert tasks'[u] == Stored(x);
      } else if HasEnding(tasks, x) {
        var u :| u in tasks && tasks[u].Ending? && tasks[u].id == x;
        assert tasks'[u].Ending?;
      }
    }
  }

  lemma TimerSafe(y: System, t: nat)
    requires Safe(y)
    ensures Safe(Apply(y, TimerFires(t)))
  {
    if t in y.timers && y.timers[t].due <= y.now {
      var id, z := y.timers[t].id, Apply(y, TimerFires(t));
      if id in y.sessions && Unanswered(y.sessions[id]) {
        EndCallSafe(y, id, ByTimer);
        assert z.tasks[y.nextTask] == Ending(id, ByTimer);
        assert HasEnding(z.tasks, id);
      }
      FiredCovered(y.sessions, y.timers, y.tasks, z.tasks, t);
    }
  }

  lemma ApplySafe(y: System, e: Event)
    requires Safe(y)
    ensures Safe(Apply(y, e))
  {
    match e
    case Request(caller, callee, _, draws) =>
      if Apply(y, e) != y { RequestSafe(y, Chosen(y.sessions.Keys, draws).value, caller, callee); }
    case Accept(id) => AcceptSafe(y, id);
    case Reject(id) => EndCallSafe(y, id, ByUser);
    case HangUp(id) => if id in y.sessions { SpawnSafe(y, HangingUp(id)); }
    case Disconnect(user) =>
      var r := FindByUser(y.sessions, y.order, user);
      if r.Some? { EndCallSafe(y, r.value, ByUser); }
    case TimerFires(t) => TimerSafe(y, t);
    case Resume(task) => if task in y.tasks { ContinueSafe(y, task); }
    case Tick(_) =>
  }

  lemma {:induction false} RunSafe(y: System, es: seq<Event>)
    requires Safe(y)
    ensures Safe(Run(y, es))
    decreases |es|
  {
    if es != [] {
      ApplySafe(y, es[0]);
      RunSafe(Apply(y, es[0]), es[1..]);
    }
  }

  // ---------- Main results ----------

  /** What holds after every run, however the handlers interleave. */
  lemma EveryInterleaving(now: int, es: seq<Event>)
    ensures var y := Run(Initial(now), es);
            && (forall id <- y.sessions ::
                  && y.sessions[id].id == id && id !in y.ended
                  && (y.sessions[id].status.Requesting? || y.sessions[id].status.Accepted?)
                  && Covered(y.sessions[id], y.timers, y.tasks))
            && Distinct(y.accepts)
            && (forall t <- y.timers :: y.timers[t].due <= y.now + CALL_TIMEOUT_MS)
  {
    RunSafe(Initial(now), es);
  }

  /** Once every handler has finished and every timer has run, only accepted calls are left. */
  lemma NoCallLeftWaiting(now: int, es: seq<Event>, id: Id)
    requires var y := Run(Initial(now), es);
             y.tasks == map[] && y.timers == map[] && id in y.sessions
    ensures Run(Initial(now), es).sessions[id].status == Accepted
  {
    RunSafe(Initial(now), es);
    var y := Run(Initial(now), es);
    assert Covered(y.sessions[id], y.timers, y.tasks);
  }

  /** A session stays as it is or is accepted, or it is gone and ended. */
  predicate Moves(sessions: Sessions, sessions': Sessions, ended: set<Id>, ended': set<Id>, id: Id) {
    && ended <= ended'
    && (id in sessions && id in sessions' ==>
          sessions[id] == sessions'[id]
            || (sessions[id].status == Requesting && sessions'[id] == sessions[id].(status := Accepted)))
    && (id in sessions && id !in sessions' ==> id in ended')
  }

  lemma ResumeMoves(y: System, task: TaskId, id: Id)
    requires Safe(y) && task in y.tasks
    ensures Moves(y.sessions, Continue(y, task).sessions, y.ended, Continue(y, task).ended, id)
  {
    assert TaskOk(y.tasks[task], y.sessions, y.issued, y.ended, y.accepts);
  }

  /** In one step a status stays or goes from requesting to accepted, and nothing is un-ended. */
  lemma StepDirection(y: System, e: Event, id: Id)
    requires Safe(y)
    ensures Moves(y.sessions, Apply(y, e).sessions, y.ended, Apply(y, e).ended, id)
  {
    if e.Resume? {
      if e.task in y.tasks { ResumeMoves(y, e.task, id); }
    } else if e.Accept? {
      AcceptMoves(y, e.id, id);
    } else {
      OthersKeepSessions(y, e);
    }
  }

  lemma AcceptMoves(y: System, accepted: Id, id: Id)
    requires SessionsOk(y.sessions, y.issued, y.ended)
    ensures Moves(y.sessions, Apply(y, Accept(accepted)).sessions, y.ended, Apply(y, Accept(accepted)).ended, id)
  {
  }

  lemma OthersKeepSessions(y: System, e: Event)
    requires !e.Resume? && !e.Accept?
    ensures Apply(y, e).sessions == y.sessions && Apply(y, e).ended == y.ended
  {
  }

  /** An ended session never comes back, whatever happens next. */
  lemma {:induction false} EndedStaysEnded(y: System, es: seq<Event>, id: Id)
    requires Safe(y) && id in y.ended
    ensures id in Run(y, es).ended && id !in Run(y, es).sessions
    decreases |es|
  {
    if es != [] {
      ApplySafe(y, es[0]);
      StepDirection(y, es[0], id);
      EndedStaysEnded(Apply(y, es[0]), es[1..], id);
    }
  }

  /** As shipped nothing is ever recorded in usersCalling, so no callee is ever reported busy. */
  predicate IsUserBusy(y: System, user: UserId) { user in y.usersCalling }

  lemma NeverBusy(now: int, es: seq<Event>, user: UserId)
    ensures !IsUserBusy(Run(Initial(now), es), user)
  {
    RunSafe(Initial(now), es);
  }

  // ---------- When the timer can end an accepted call ----------

  /** The next step removes the session on behalf of the auto-cancel timer. */
  predicate TimerRemovesNow(y: System, e: Event, id: Id) {
    e.Resume? && e.task in y.tasks && TimerEnd(y.tasks[e.task], id) && id in y.sessions
  }

  predicate TimerEnd(t: Task, id: Id) { t.Ending? && t.id == id && t.cause.ByTimer? }

  predicate TimerRemoves(y: System, es: seq<Event>, id: Id)
    decreases |es|
  {
    es != [] && (TimerRemovesNow(y, es[0], id) || TimerRemoves(Apply(y, es[0]), es[1..], id))
  }

  predicate TimerEndInFlight(tasks: Tasks, id: Id) { exists t <- tasks :: TimerEnd(tasks[t], id) }

  /** Accepted, or already over, with no timer-started end under way: the timer has lost its chance. */
  ghost predicate OutOfReach(y: System, id: Id) {
    !TimerEndInFlight(y.tasks, id) && (id in y.ended || (id in y.sessions && y.sessions[id].status.Accepted?))
  }

  /** The timer only starts to end a call that is unanswered at that moment. */
  lemma TimerStartsOnUnanswered(y: System, e: Event, t: TaskId, id: Id)
    requires t in Apply(y, e).tasks && TimerEnd(Apply(y, e).tasks[t], id)
    ensures (t in y.tasks && TimerEnd(y.tasks[t], id))
        || (e.TimerFires? && id in y.sessions && Unanswered(y.sessions[id]))
  {
    if e.Resume? && e.task in y.tasks { ContinuingStartsNoTimerEnd(y, e.task, t, id); }
  }

  lemma ContinuingStartsNoTimerEnd(y: System, task: TaskId, t: TaskId, id: Id)
    requires task in y.tasks && t in Continue(y, task).tasks && TimerEnd(Continue(y, task).tasks[t], id)
    ensures t in y.tasks && TimerEnd(y.tasks[t], id)
  {
  }

  lemma OutOfReachStays(y: System, e: Event, id: Id)
    requires Safe(y) && OutOfReach(y, id)
    ensures OutOfReach(Apply(y, e), id)
  {
    var tasks' := Apply(y, e).tasks;
    StepDirection(y, e, id);
    forall t <- tasks' ensures !TimerEnd(tasks'[t], id) {
      if TimerEnd(tasks'[t], id) { TimerStartsOnUnanswered(y, e, t, id); }
    }
  }

  lemma {:induction false} OutOfReachForever(y: System, es: seq<Event>, id: Id)
    requires Safe(y) && OutOfReach(y, id)
    ensures !TimerRemoves(y, es, id)
    decreases |es|
  {
    if es != [] {
      ApplySafe(y, es[0]);
      OutOfReachStays(y, es[0], id);
      OutOfReachForever(Apply(y, es[0]), es[1..], id);
    }
  }

  lemma RemovesAtOnce(y: System, t: TaskId, id: Id)
    requires id in y.sessions && t in y.tasks && TimerEnd(y.tasks[t], id)
    ensures exists es :: TimerRemoves(y, es, id)
  {
    var e := Resume(t);
    assert TimerRemovesNow(y, e, id);
    assert [e][0] == e;
    assert TimerRemoves(y, [e], id);
  }

  /**
    A timer only starts to end a call that is not accepted, but the session stays in the map while
    the row is updated. An accepted call can still be removed by the timer exactly when the timer
    had started to end it before it was accepted.
   */
  lemma TimerCanEndAccepted(y: System, id: Id)
    requires Safe(y) && id in y.sessions && y.sessions[id].status.Accepted?
    ensures (exists es :: TimerRemoves(y, es, id)) <==> TimerEndInFlight(y.tasks, id)
  {
    if TimerEndInFlight(y.tasks, id) {
      var t :| t in y.tasks && TimerEnd(y.tasks[t], id);
      RemovesAtOnce(y, t, id);
    } else {
      forall es ensures !TimerRemoves(y, es, id) {
        OutOfReachForever(y, es, id);
      }
    }
  }

  lemma {:induction false} RunSnoc(y: System, es: seq<Event>, e: Event)
    ensures Run(y, es + [e]) == Apply(Run(y, es), e)
    decreases |es|
  {
    if es == [] {
      assert Run(Apply(y, e), []) == Apply(y, e);
    } else {
      assert (es + [e])[1..] == es[1..] + [e];
      RunSnoc(Apply(y, es[0]), es[1..], e);
    }
  }

  /** A call has been requested and its timer is armed. */
  lemma CallRequested(id: Id, caller: UserId, callee: UserId) returns (es: seq<Event>)
    ensures Run(Initial(0), es) ==
            System(map[id := Session(id, Requesting, caller, callee)], [id], map[], map[], 1,
              map[0 := Timer(id, CALL_TIMEOUT_MS)], 1,
                   0, {id}, [], {})
  {
    var request := Request(caller, callee, true, [id, id, id]);
    RunSnoc(Initial(0), [], request);
    RunSnoc(Initial(0), [request], Resume(0));
    RunSnoc(Initial(0), [request] + [Resume(0)], Resume(0));
    es := [request] + [Resume(0)] + [Resume(0)];
    assert Run(Initial(0), [request]).tasks == map[0 := Creating(id, caller, callee)];
    assert Run(Initial(0), [request] + [Resume(0)]).tasks == map[0 := Stored(id)];
  }

  /** The answer comes while the timer's end is in flight: the accepted call is removed. */
  lemma AcceptedAndTimedOut(id: Id, caller: UserId, callee: UserId) returns (es: seq<Event>)
    ensures var y := Run(Initial(0), es);
            && id in y.sessions && y.sessions[id].status.Accepted? && TimerEndInFlight(y.tasks, id)
            && TimerRemovesNow(y, Resume(1), id)
  {
    var requested := CallRequested(id, caller, callee);
    var e1, e2, e3 := Tick(CALL_TIMEOUT_MS), TimerFires(0), Accept(id);
    RunSnoc(Initial(0), requested, e1);
    RunSnoc(Initial(0), requested + [e1], e2);
    RunSnoc(Initial(0), requested + [e1] + [e2], e3);
    es := requested + [e1] + [e2] + [e3];
    var y := Run(Initial(0), es);
    assert y.tasks == map[1 := Ending(id, ByTimer), 2 := Accepting(id)];
    assert TimerEnd(y.tasks[1], id);
  }

  /** A suspended end or hang-up stays what it is until it resumes. */
  lemma {:induction false} TaskStays(y: System, es: seq<Event>, t: TaskId)
    requires Safe(y) && t < y.nextTask && (t in y.tasks ==> y.tasks[t].Ending? || y.tasks[t].HangingUp?)
    ensures t in Run(y, es).tasks ==> t in y.tasks && Run(y, es).tasks[t] == y.tasks[t]
    ensures Safe(Run(y, es))
    decreases |es|
  {
    if es != [] {
      ApplySafe(y, es[0]);
      TaskStaysOnce(y, es[0], t);
      TaskStays(Apply(y, es[0]), es[1..], t);
    }
  }

  lemma TaskStaysOnce(y: System, e: Event, t: TaskId)
    requires t < y.nextTask && (t in y.tasks ==> y.tasks[t].Ending? || y.tasks[t].HangingUp?)
    ensures t < Apply(y, e).nextTask
    ensures t in Apply(y, e).tasks ==> t in y.tasks && Apply(y, e).tasks[t] == y.tasks[t]
  {
    if e.Resume? && e.task in y.tasks { TaskStaysWhileContinuing(y, e.task, t); }
  }

  lemma TaskStaysWhileContinuing(y: System, task: TaskId, t: TaskId)
    requires task in y.tasks && t < y.nextTask && (t in y.tasks ==> y.tasks[t].Ending? || y.tasks[t].HangingUp?)
    ensures t < Continue(y, task).nextTask
    ensures t in Continue(y, task).tasks ==> t in y.tasks && Continue(y, task).tasks[t] == y.tasks[t]
  {
  }

  /** The sessions the user takes part in. */
  function CallsOf(sessions: Sessions, user: UserId): set<Id> {
    set id | id in sessions && (sessions[id].caller == user || sessions[id].callee == user)
  }

  lemma DisconnectStartsEnd(y: System, user: UserId)
    requires Ordered(y.sessions, y.order) && FindByUser(y.sessions, y.order, user).Some?
    ensures var id := FindByUser(y.sessions, y.order, user).value;
            Apply(y, Disconnect(user)) ==
              y.(tasks := y.tasks[y.nextTask := Ending(id, ByUser)], nextTask := y.nextTask + 1)
  {
    FindByUserIsOldest(y.sessions, y.order, user);
    assert Apply(y, Disconnect(user)) == EndCall(y, FindByUser(y.sessions, y.order, user).value, ByUser);
  }

  /**
    A disconnect of a user starts to end his oldest call and nothing else. Whatever happens until
    that end resumes, it then removes that call and no other; so he is left in exactly those of his
    calls of that moment that are not the oldest one of the disconnect.
   */
  lemma DisconnectEndsOne(y: System, user: UserId, id: Id, w: System, es: seq<Event>)
    requires Safe(y) && FindByUser(y.sessions, y.order, user) == Some(id) && w == Apply(y, Disconnect(user))
    ensures StartsEnd(y, w, id) && id in y.sessions && RemovesOne(w, y.nextTask, id)
    ensures y.nextTask in Run(w, es).tasks ==>
              CallsOf(Apply(Run(w, es), Resume(y.nextTask)).sessions, user) == CallsOf(Run(w, es).sessions, user) - {id}
  {
    FindByUserIsOldest(y.sessions, y.order, user);
    DisconnectStartsEnd(y, user);
    ApplySafe(y, Disconnect(user));
    EndRemovesOne(w, y.nextTask, id);
    if y.nextTask in Run(w, es).tasks { CallsWithout(Run(w, es).sessions, id, user); }
  }

  lemma CallsWithout(sessions: Sessions, id: Id, user: UserId)
    ensures CallsOf(sessions - {id}, user) == CallsOf(sessions, user) - {id}
  {
  }

  lemma RemovesItsOwn(y: System, t: TaskId, id: Id)
    requires t in y.tasks && y.tasks[t] == Ending(id, ByUser)
    ensures Apply(y, Resume(t)).sessions == y.sessions - {id}
    ensures id in y.sessions ==> id in Apply(y, Resume(t)).ended
  {
    assert Continue(y, t) == Remove(y.(tasks := y.tasks - {t}), id);
    if id !in y.sessions { assert y.sessions - {id} == y.sessions; }
  }

  /** The only thing that happens is that a user-caused end of this call is started, if the call is active. */
  predicate StartsEnd(y: System, z: System, id: Id) {
    z == if id in y.sessions then y.(tasks := y.tasks[y.nextTask := Ending(id, ByUser)], nextTask := y.nextTask + 1)
      else y
  }

  /** Whatever happens until it resumes, this end then removes its call, which is ended for good, and no other. */
  ghost predicate RemovesOne(y: System, t: TaskId, id: Id) {
    forall es :: t in Run(y, es).tasks ==>
      var z := Apply(Run(y, es), Resume(t));
      z.sessions == Run(y, es).sessions - {id} && id in z.ended
  }

  lemma EndRemovesOne(y: System, t: TaskId, id: Id)
    requires Safe(y) && t in y.tasks && y.tasks[t] == Ending(id, ByUser) && id in y.sessions
    ensures RemovesOne(y, t, id)
  {
    forall es | t in Run(y, es).tasks
      ensures var z := Apply(Run(y, es), Resume(t));
              z.sessions == Run(y, es).sessions - {id} && id in z.ended
    {
      TaskStays(y, es, t);
      RemovesItsOwn(Run(y, es), t, id);
      ActiveOrEnded(y, es, id);
      if id in Run(y, es).ended { StepDirection(Run(y, es), Resume(t), id); }
    }
  }

  /** A call that was active once is active or ended. */
  lemma {:induction false} ActiveOrEnded(y: System, es: seq<Event>, id: Id)
    requires Safe(y) && (id in y.sessions || id in y.ended)
    ensures id in Run(y, es).sessions || id in Run(y, es).ended
    decreases |es|
  {
    if es != [] {
      ApplySafe(y, es[0]);
      StepDirection(y, es[0], id);
      ActiveOrEnded(Apply(y, es[0]), es[1..], id);
    }
  }

  /** A rejection of an active call starts to end it, and whatever happens then, that call and no other is removed. */
  lemma RejectEndsOne(y: System, id: Id)
    requires Safe(y)
    ensures StartsEnd(y, Apply(y, Reject(id)), id)
    ensures id in y.sessions ==> RemovesOne(Apply(y, Reject(id)), y.nextTask, id)
  {
    if id in y.sessions {
      ApplySafe(y, Reject(id));
      EndRemovesOne(Apply(y, Reject(id)), y.nextTask, id);
    }
  }

  /**
    A hang-up of an active call waits for its authentication. Whatever happens until that is back,
    it then starts to end the call if it is still active, and whatever happens after that, that call
    and no other is removed.
   */
  lemma HangUpEndsOne(y: System, id: Id, es: seq<Event>, v: System)
    requires Safe(y) && id in y.sessions
    requires v == Run(Apply(y, HangUp(id)), es) && y.nextTask in v.tasks
    ensures Apply(y, HangUp(id)) == y.(tasks := y.tasks[y.nextTask := HangingUp(id)], nextTask := y.nextTask + 1)
    ensures StartsEnd(v.(tasks := v.tasks - {y.nextTask}), Apply(v, Resume(y.nextTask)), id)
    ensures id in v.sessions ==> RemovesOne(Apply(v, Resume(y.nextTask)), v.nextTask, id)
  {
    var w := Apply(y, HangUp(id));
    ApplySafe(y, HangUp(id));
    TaskStays(w, es, y.nextTask);
    assert w.tasks[y.nextTask] == HangingUp(id);
    HangUpResumes(v, y.nextTask, id);
    if id in v.sessions {
      ApplySafe(v, Resume(y.nextTask));
      EndRemovesOne(Apply(v, Resume(y.nextTask)), v.nextTask, id);
    }
  }

  lemma HangUpResumes(v: System, t: TaskId, id: Id)
    requires t in v.tasks && v.tasks[t] == HangingUp(id)
    ensures StartsEnd(v.(tasks := v.tasks - {t}), Apply(v, Resume(t)), id)
    ensures id in v.sessions ==>
        v.nextTask in Apply(v, Resume(t)).tasks && Apply(v, Resume(t)).tasks[v.nextTask] == Ending(id, ByUser)
    ensures Apply(v, Resume(t)).sessions == v.sessions
  {
  }

  /** An accept answers a waiting call, and is refused for any other without changing anything. */
  lemma AcceptExactly(y: System, id: Id)
    requires Safe(y)
    ensures Apply(y, Accept(id)) ==
            if id in y.sessions && y.sessions[id].status == Requesting
            then y.(sessions := y.sessions[id := y.sessions[id].(status := Accepted)], accepts := y.accepts + [id],
                    tasks := y.tasks[y.nextTask := Accepting(id)], nextTask := y.nextTask + 1)
            else y
  {
  }

  /** The id a request gets: the first of three draws that is not active. */
  lemma ChosenIsFirst(active: set<Id>, draws: seq<Id>)
    requires |draws| == 3
    ensures match Chosen(active, draws)
            case Some(id) => exists i | 0 <= i < 3 :: draws[i] == id && id !in active && forall j | 0 <= j < i ::
                draws[j] in active
            case None => forall i | 0 <= i < 3 :: draws[i] in active
  {
  }

  /** A request to an online callee with an id never drawn before has its row created ... */
  lemma RequestRuns(y: System, caller: UserId, callee: UserId, id: Id)
    requires Safe(y) && id !in y.issued
    ensures var w := Apply(y, Request(caller, callee, true, [id, id, id]));
            && w.sessions == y.sessions && w.tasks == y.tasks[y.nextTask := Creating(id, caller, callee)]
            && w.nextTask == y.nextTask + 1 && w.timers == y.timers
  {
  }

  /** ... then puts a waiting call between the two into the map ... */
  lemma RequestCreates(y: System, t: TaskId, id: Id, caller: UserId, callee: UserId)
    requires Safe(y) && t in y.tasks && y.tasks[t] == Creating(id, caller, callee)
    ensures var w := Apply(y, Resume(t));
            && w.sessions == y.sessions[id := Session(id, Requesting, caller, callee)] && w.order == y.order + [id]
            && w.tasks == y.tasks[t := Stored(id)] && w.timers == y.timers
  {
    assert TaskOk(y.tasks[t], y.sessions, y.issued, y.ended, y.accepts);
  }

  /** ... and then arms a timer of ten seconds. */
  lemma RequestArms(y: System, t: TaskId, id: Id)
    requires t in y.tasks && y.tasks[t] == Stored(id)
    ensures var w := Apply(y, Resume(t));
            && w.timers == y.timers[y.nextTimer := Timer(id, y.now + 10_000)] && w.sessions == y.sessions
            && w.tasks == y.tasks - {t}
  {
  }

  /** A timer that is due starts to end its call if nobody has answered it, and does nothing else. */
  lemma TimerExactly(y: System, t: nat)
    requires Safe(y) && t in y.timers && y.timers[t].due <= y.now
    ensures var id := y.timers[t].id;
            var z := y.(timers := y.timers - {t});
            Apply(y, TimerFires(t)) ==
            if id in y.sessions && y.sessions[id].status == Requesting
            then z.(tasks := y.tasks[y.nextTask := Ending(id, ByTimer)], nextTask := y.nextTask + 1) else z
  {
  }

  /** A user has requested two calls. */
  lemma TwoCalls(a: Id, b: Id, user: UserId, callee: UserId) returns (es: seq<Event>)
    requires a != b
    ensures var y := Run(Initial(0), es);
            && y.sessions == map[a := Session(a, Requesting, user, callee), b := Session(b, Requesting, user, callee)]
            && y.order == [a, b] && y.tasks == map[] && y.nextTask == 2
  {
    var requested := CallRequested(a, user, callee);
    var again := Request(user, callee, true, [b, b, b]);
    RunSnoc(Initial(0), requested, again);
    assert Run(Initial(0), requested + [again]).tasks == map[1 := Creating(b, user, callee)];
    RunSnoc(Initial(0), requested + [again], Resume(1));
    assert Run(Initial(0), requested + [again] + [Resume(1)]).tasks == map[1 := Stored(b)];
    RunSnoc(Initial(0), requested + [again] + [Resume(1)], Resume(1));
    es := requested + [again] + [Resume(1)] + [Resume(1)];
  }

  /** A user in two calls disconnects: once every handler is through he is still in one. */
  lemma DisconnectLeavesOne(a: Id, b: Id, user: UserId, callee: UserId) returns (es: seq<Event>)
    requires a != b
    ensures var y := Run(Initial(0), es + [Disconnect(user)] + [Resume(2)]);
            y.tasks == map[] && CallsOf(y.sessions, user) == {b}
  {
    es := TwoCalls(a, b, user, callee);
    RunSnoc(Initial(0), es, Disconnect(user));
    RunSnoc(Initial(0), es + [Disconnect(user)], Resume(2));
  }

  // ---------- Imperative form ----------

  class CallSession {
    const id: Id
    const callerUserId: UserId
    const calleeUserId: UserId
    var status: Status

    constructor (id: Id, caller: UserId, callee: UserId)
      ensures View() == Session(id, Requesting, caller, callee)
    {
      this.id, callerUserId, calleeUserId, status := id, caller, callee, Requesting;
    }

    ghost function View(): Session
      reads this`status
    {
      Session(id, status, callerUserId, calleeUserId)
    }
  }

  class CallService {
    var activeCallSessions: map<Id, CallSession>
    var order: seq<Id>
    var usersCalling: map<UserId, Id>

    ghost predicate Valid()
      reads this`activeCallSessions, this`order
    {
      && (forall id <- activeCallSessions :: activeCallSessions[id].id == id)
      && Distinct(order) && (forall x :: x in order <==> x in activeCallSessions)
    }

    ghost function View(): Sessions
      reads this`activeCallSessions, activeCallSessions.Values
    {
      map id | id in activeCallSessions :: activeCallSessions[id].View()
    }

    constructor ()
      ensures Valid() && View() == map[] && order == [] && usersCalling == map[]
    {
      activeCallSessions, order, usersCalling := map[], [], map[];
    }

    /** The retry loop of initActiveCallSession. */
    method ChooseSessionId(draws: seq<Id>) returns (r: Option<Id>)
      requires |draws| == MAX_RETRY_COUNT
      ensures r == Chosen(activeCallSessions.Keys, draws)
    {
      var tempSessionId := draws[0];
      var retryCount := 0;
      while tempSessionId in activeCallSessions
        invariant 0 <= retryCount < MAX_RETRY_COUNT && tempSessionId == draws[retryCount]
        invariant forall i | 0 <= i < retryCount :: draws[i] in activeCallSessions
        decreases MAX_RETRY_COUNT - retryCount
      {
        retryCount := retryCount + 1;
        if retryCount == MAX_RETRY_COUNT { return None; }
        tempSessionId := draws[retryCount];
      }
      return Some(tempSessionId);
    }

    /** initActiveCallSession, after its await. */
    method StoreSession(id: Id, caller: UserId, callee: UserId) returns (session: CallSession)
      requires Valid() && id !in activeCallSessions
      modifies this
      ensures Valid() && fresh(session)
      ensures View() == old(View())[id := Session(id, Requesting, caller, callee)]
      ensures order == old(order) + [id] && usersCalling == old(usersCalling)
    {
      session := new CallSession(id, caller, callee);
      Insert(session);
    }

    method Insert(session: CallSession)
      requires Valid() && session.id !in activeCallSessions
      modifies this`activeCallSessions, this`order
      ensures Valid() && View() == old(View())[session.id := session.View()]
      ensures order == old(order) + [session.id]
    {
      activeCallSessions := activeCallSessions[session.id := session];
      order := order + [session.id];
    }

    /** acceptCall, up to its await. */
    method AcceptCall(id: Id) returns (ok: bool)
      requires Valid()
      modifies if id in activeCallSessions then {activeCallSessions[id]} else {}
      ensures Valid()
      ensures ok == (id in old(View()) && Unanswered(old(View())[id]))
      ensures View() == if ok then old(View())[id := old(View())[id].(status := Accepted)] else old(View())
    {
      if id !in activeCallSessions { return false; }
      var session := activeCallSessions[id];
      if session.status != Requesting && session.status != Ringing { return false; }
      session.status := Accepted;
      return true;
    }

    method FindSessionByUserId(user: UserId) returns (r: Option<Id>)
      requires Valid()
      ensures r == FindByUser(View(), order, user)
    {
      var i := 0;
      assert order[0..] == order;
      while i < |order|
        invariant 0 <= i <= |order|
        invariant forall x <- order[i..] :: x in View()
        invariant FindByUser(View(), order, user) == FindByUser(View(), order[i..], user)
      {
        var session := activeCallSessions[order[i]];
        assert order[i..][0] == order[i] && order[i..][1..] == order[i + 1..];
        if session.callerUserId == user || session.calleeUserId == user {
          return Some(order[i]);
        }
        i := i + 1;
      }
      return None;
    }

    /** endCall, after its await; the session object was fetched before it. */
    method RemoveSession(session: CallSession)
      requires Valid()
      modifies this
      ensures Valid()
      ensures View() == old(View()) - {session.id}
      ensures order == Without(old(order), session.id)
      ensures usersCalling ==
          DropCalling(DropCalling(old(usersCalling), session.callerUserId, session.id), session.calleeUserId,
            session.id)
    {
      DeleteSession(session.id);
      DeleteBothCalling(session);
    }

    method DeleteBothCalling(session: CallSession)
      requires Valid()
      modifies this`usersCalling
      ensures Valid() && View() == old(View()) && order == old(order)
      ensures usersCalling ==
          DropCalling(DropCalling(old(usersCalling), session.callerUserId, session.id), session.calleeUserId,
            session.id)
    {
      DeleteCalling(session.callerUserId, session.id);
      DeleteCalling(session.calleeUserId, session.id);
    }

    method DeleteSession(id: Id)
      requires Valid()
      modifies this`activeCallSessions, this`order
      ensures Valid()
      ensures View() == old(View()) - {id}
      ensures order == Without(old(order), id)
    {
      WithoutDistinct(order, id);
      activeCallSessions := activeCallSessions - {id};
      order := Without(order, id);
    }

    method DeleteCalling(user: UserId, id: Id)
      requires Valid()
      modifies this`usersCalling
      ensures Valid() && View() == old(View()) && order == old(order)
      ensures usersCalling == DropCalling(old(usersCalling), user, id)
    {
      if user in usersCalling && usersCalling[user] == id {
        usersCalling := usersCalling - {user};
      }
    }

    /** The callback of autoCancelCall: whether it starts to end the call. */
    method AutoCancelDue(id: Id) returns (end: bool)
      requires Valid()
      ensures end == (id in View() && Unanswered(View()[id]))
    {
      end := id in activeCallSessions
        && (activeCallSessions[id].status == Requesting || activeCallSessions[id].status == Ringing);
    }
  }
}
