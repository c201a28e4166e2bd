/**
  Violation reports, the actions an admin takes on them, and the ban check at login.

  First admin calls handled one at a time; then calls that overlap, cut between the read of a
  report and the writes that follow it.
 */
module Moderation {
  import opened Common

  type UserId = nat

  datatype ReportStatus = PENDING | RESOLVED | DISMISSED
  datatype ActionType = WARNING | TEMPORARY_BAN | PERMANENT_BAN

  /** Reports are identified by their position. */
  datatype Report = Report(reportedUser: UserId, status: ReportStatus)

  datatype Action = Action(report: nat, kind: ActionType, bannedUntil: Option<int>, createdAt: int)

  datatype MessageKind = TEXT | STICKER | MEDIA | PIN_NOTICE | NOTIFY

  datatype Message = Message(kind: MessageKind, content: string, stickerId: Option<nat>, mediaId: Option<nat>,
                             isDeleted: bool, isViolated: bool)

  datatype State = State(reports: seq<Report>, actions: seq<Action>, messages: map<nat, Message>, media: set<nat>,
                         now: int)

  /** The two ways to say how long a temporary ban lasts; an unparsable date is refused. */
  datatype Until = NotGiven | ParsesTo(ms: int) | Invalid

  datatype Outcome = Done | ReportNotFound | AlreadyProcessed | InvalidBannedUntil

  const DAY_MS := 86_400_000
  const HOUR_MS := 3_600_000
  const MINUTE_MS := 60_000

  // ---------- Operations ----------

  function BannedUntil(kind: ActionType, until: Until, days: int, now: int): Option<int> {
    if !kind.TEMPORARY_BAN? then None
    else if until.ParsesTo? then Some(until.ms)
    else if days != 0 then Some(now + days * DAY_MS)
    else None
  }

  function BanOutcome(s: State, report: nat, kind: ActionType, until: Until): Outcome {
    if report >= |s.reports| then ReportNotFound
    else if !s.reports[report].status.PENDING? then AlreadyProcessed
    else if kind.TEMPORARY_BAN? && until.Invalid? then InvalidBannedUntil
    else Done
  }

  /** What is left of a message that broke the rules; its media file is dropped only if the file is known. */
  function Redacted(m: Message, media: set<nat>): Message {
    var r := m.(isDeleted := true, isViolated := true, content := "");
    match m.kind
    case STICKER => r.(stickerId := None)
    case MEDIA => if m.mediaId.Some? && m.mediaId.value in media then r.(mediaId := None) else r
    case _ => r
  }

  predicate DropsMedia(m: Message, media: set<nat>, id: nat) {
    m.kind.MEDIA? && m.mediaId == Some(id) && id in media
  }

  datatype Op =
    | FileReport(user: UserId)
    | UpdateStatus(report: nat, status: ReportStatus)
    | Ban(report: nat, kind: ActionType, until: Until, days: int, messageIds: set<nat>)
    | Tick(ms: nat)

  function RedactedIn(messages: map<nat, Message>, media: set<nat>, ids: set<nat>): map<nat, Message> {
    map id | id in messages :: if id in ids then Redacted(messages[id], media) else messages[id]
  }

  function FilesOf(messages: map<nat, Message>, media: set<nat>, ids: set<nat>): set<nat> {
    set f | f in media && exists id :: id in ids && id in messages && DropsMedia(messages[id], media, f)
  }

  function Redact(s: State, ids: set<nat>): State {
    s.(messages := RedactedIn(s.messages, s.media, ids), media := s.media - FilesOf(s.messages, s.media, ids))
  }

  function Apply(s: State, op: Op): State {
    match op
    case FileReport(user) => s.(reports := s.reports + [Report(user, PENDING)])
    case UpdateStatus(report, status) =>
      if report < |s.reports| && s.reports[report].status.PENDING?
      then s.(reports := s.reports[report := s.reports[report].(status := status)]) else s
    case Ban(report, kind, until, days, ids) =>
      if BanOutcome(s, report, kind, until).Done? then
        Redact(s.(actions := s.actions + [Action(report, kind, BannedUntil(kind, until, days, s.now), s.now)],
                  reports := s.reports[report := s.reports[report].(status := RESOLVED)]), ids)
      else s
    case Tick(ms) => s.(now := s.now + ms)
  }

  function Run(s: State, ops: seq<Op>): State
    decreases |ops|
  {
    if ops == [] then s else Run(Apply(s, ops[0]), ops[1..])
  }

  // ---------- What the operations do, field by field ----------

  /** A media file is dropped: a listed media message held it, and it was known. */
  ghost predicate IsDropped(s: State, ids: set<nat>, f: nat) {
    f in s.media && exists id ::
      id in ids && id in s.messages && s.messages[id].kind == MEDIA && s.messages[id].mediaId == Some(f)
  }

  /**
    What a ban leaves of the messages it lists: deleted, marked and empty, of the same kind, without
    sticker, and without a file that is dropped. All other messages are as before.
   */
  lemma RedactExactly(s: State, ids: set<nat>, id: nat)
    requires id in s.messages
    ensures var s', m := Redact(s, ids), s.messages[id];
            && s'.messages.Keys == s.messages.Keys
            && (forall f :: f in s'.media <==> f in s.media && !IsDropped(s, ids, f))
            && var m' := s'.messages[id];
               if id !in ids then m' == m
               else
                 && m'.isDeleted && m'.isViolated && m'.content == "" && m'.kind == m.kind
                 && m'.stickerId == (if m.kind == STICKER then None else m.stickerId)
                 && (m.kind == MEDIA ==> forall f: nat :: IsDropped(s, ids, f) ==> m'.mediaId != Some(f))
                 && (m'.mediaId == m.mediaId
                     || (m.kind == MEDIA && m'.mediaId == None && m.mediaId.Some? && m.mediaId.value in s.media))
  {
    assert forall x <- s.messages, f | f in s.media ::
        DropsMedia(s.messages[x], s.media, f) <==> s.messages[x].kind == MEDIA && s.messages[x].mediaId == Some(f);
    assert forall f :: f in FilesOf(s.messages, s.media, ids) <==> IsDropped(s, ids, f);
  }

  /** A status update changes the status of a pending report, and nothing else. */
  lemma StatusExactly(s: State, report: nat, status: ReportStatus)
    ensures Apply(s, UpdateStatus(report, status)) ==
            if report < |s.reports| && s.reports[report].status == PENDING
            then s.(reports := s.reports[report := Report(s.reports[report].reportedUser, status)]) else s
  {
  }

  /** The end of a ban, if it has one. */
  predicate EndsAt(kind: ActionType, until: Until, days: int, now: int, end: Option<int>) {
    match kind
    case TEMPORARY_BAN =>
      (match until
       case ParsesTo(ms) => end == Some(ms)
       case _ => if days == 0 then end == None else end == Some(now + days * 86_400_000))
    case _ => end == None
  }

  /**
    A ban takes effect exactly on a pending report, unless the end of a temporary one is unreadable. It
    then adds one action, resolves the report and redacts the listed messages; otherwise nothing
    changes, and the admin is told the first reason that applies.
   */
  lemma BanExactly(s: State, report: nat, kind: ActionType, until: Until, days: int, ids: set<nat>)
    ensures var s', told := Apply(s, Ban(report, kind, until, days, ids)), BanOutcome(s, report, kind, until);
            if report < |s.reports| && s.reports[report].status == PENDING
                && !(kind == TEMPORARY_BAN && until == Invalid) then
              && told == Done
              && |s'.actions| == |s.actions| + 1 && s'.actions[..|s.actions|] == s.actions
              && s'.actions[|s.actions|].report == report && s'.actions[|s.actions|].kind == kind
              && s'.actions[|s.actions|].createdAt == s.now
              && EndsAt(kind, until, days, s.now, s'.actions[|s.actions|].bannedUntil)
              && s'.reports == s.reports[report := Report(s.reports[report].reportedUser, RESOLVED)]
              && s'.messages == Redact(s, ids).messages && s'.media == Redact(s, ids).media && s'.now == s.now
            else
              && s' == s
              && told == if report >= |s.reports| then ReportNotFound
                         else if s.reports[report].status != PENDING then AlreadyProcessed else InvalidBannedUntil
  {
  }

  // ---------- Reports: invariants of every run ----------

  ghost predicate Inv(s: State) {
    && (forall a <- s.actions :: a.report < |s.reports| && s.reports[a.report].status.RESOLVED? && a.createdAt <= s.now)
    && (forall i, j | 0 <= i < j < |s.actions| ::
        s.actions[i].report != s.actions[j].report && s.actions[i].createdAt <= s.actions[j].createdAt)
  }

  lemma ApplyKeepsInv(s: State, op: Op)
    requires Inv(s)
    ensures Inv(Apply(s, op))
  {
    if op.Ban? && BanOutcome(s, op.report, op.kind, op.until).Done? {
      forall i | 0 <= i < |s.actions| ensures s.actions[i].report != op.report && s.actions[i].createdAt <= s.now {
        assert s.actions[i] in s.actions;
      }
    }
  }

  /** A report that has left PENDING keeps its status. */
  lemma ProcessedStays(s: State, op: Op, report: nat)
    requires report < |s.reports| && !s.reports[report].status.PENDING?
    ensures report < |Apply(s, op).reports| && Apply(s, op).reports[report] == s.reports[report]
  {
  }

  lemma {:induction false} RunKeepsReports(s: State, ops: seq<Op>, report: nat)
    requires Inv(s)
    ensures Inv(Run(s, ops))
    ensures report < |s.reports| ==>
        report < |Run(s, ops).reports| && Run(s, ops).reports[report].reportedUser == s.reports[report].reportedUser
    ensures report < |s.reports| && !s.reports[report].status.PENDING? ==>
        Run(s, ops).reports[report] == s.reports[report]
    decreases |ops|
  {
    if ops != [] {
      ApplyKeepsInv(s, ops[0]);
      if report < |s.reports| && !s.reports[report].status.PENDING? { ProcessedStays(s, ops[0], report); }
      RunKeepsReports(Apply(s, ops[0]), ops[1..], report);
    }
  }

  /** After every run each report has at most one action, and is RESOLVED if it has one. */
  lemma OneActionPerReport(messages: map<nat, Message>, media: set<nat>, now: int, ops: seq<Op>, i: nat, j: nat)
    ensures var s := Run(State([], [], messages, media, now), ops);
            && (i < |s.actions| ==>
                s.actions[i].report < |s.reports| && s.reports[s.actions[i].report].status == RESOLVED)
            && (i < j < |s.actions| ==> s.actions[i].report != s.actions[j].report)
  {
    RunKeepsReports(State([], [], messages, media, now), ops, 0);
    var s := Run(State([], [], messages, media, now), ops);
    if i < |s.actions| { assert s.actions[i] in s.actions; }
  }

  // ---------- Admin calls that overlap ----------

  /** A suspended call has found its report pending; this is what it will write. */
  datatype Call =
    | Updating(report: nat, status: ReportStatus)
    | Banning(report: nat, kind: ActionType, bannedUntil: Option<int>, messageIds: set<nat>)

  type Calls = map<nat, Call>

  datatype Write = Write(report: nat, status: ReportStatus, byBan: bool)

  /** `log` is a history: the writes to the status of a report, in order. */
  datatype System = System(s: State, calls: Calls, next: nat, log: seq<Write>)

  datatype Event =
    | Filed(user: UserId)
    | StatusCall(report: nat, status: ReportStatus)
    | BanCall(report: nat, kind: ActionType, until: Until, days: int, messageIds: set<nat>)
    | Resume(call: nat)
    | Elapse(ms: nat)

  predicate HasAction(s: State, report: nat) { exists a <- s.actions :: a.report == report }

  function SetStatus(reports: seq<Report>, report: nat, status: ReportStatus): seq<Report>
    requires report < |reports|
  {
    reports[report := reports[report].(status := status)]
  }

  /**
    The update does not look at the status again. A second action for a report fails and takes its
    transaction with it.
   */
  function Finish(y: System, call: nat): System
    requires call in y.calls && y.calls[call].report < |y.s.reports|
  {
    var z := y.(calls := y.calls - {call});
    match y.calls[call]
    case Updating(report, status) =>
      z.(s := y.s.(reports := SetStatus(y.s.reports, report, status)), log := y.log + [Write(report, status, false)])
    case Banning(report, kind, bannedUntil, ids) =>
      if HasAction(y.s, report) then z
      else
        z.(s := Redact(y.s.(actions := y.s.actions + [Action(report, kind, bannedUntil, y.s.now)],
                            reports := SetStatus(y.s.reports, report, RESOLVED)), ids),
           log := y.log + [Write(report, RESOLVED, true)])
  }

  function Begin(y: System, call: Call): System {
    y.(calls := y.calls[y.next := call], next := y.next + 1)
  }

  function Step(y: System, e: Event): System {
    match e
    case Filed(user) => y.(s := Apply(y.s, FileReport(user)))
    case StatusCall(report, status) =>
      if report < |y.s.reports| && y.s.reports[report].status.PENDING? then Begin(y, Updating(report, status)) else y
    case BanCall(report, kind, until, days, ids) =>
      if BanOutcome(y.s, report, kind, until).Done?
      then Begin(y, Banning(report, kind, BannedUntil(kind, until, days, y.s.now), ids)) else y
    case Resume(call) => if call in y.calls && y.calls[call].report < |y.s.reports| then Finish(y, call) else y
    case Elapse(ms) => y.(s := Apply(y.s, Tick(ms)))
  }

  function Play(y: System, es: seq<Event>): System
    decreases |es|
  {
    if es == [] then y else Play(Step(y, es[0]), es[1..])
  }

  function Start(messages: map<nat, Message>, media: set<nat>, now: int): System {
    System(State([], [], messages, media, now), map[], 0, [])
  }

  /** A call that nothing overlaps is the whole call. */
  lemma UndisturbedCalls(y: System, report: nat, status: ReportStatus, kind: ActionType, until: Until, days: int,
                         ids: set<nat>)
    requires Inv(y.s) && y.next !in y.calls
    ensures Step(Step(y, StatusCall(report, status)), Resume(y.next)).s == Apply(y.s, UpdateStatus(report, status))
    ensures Step(Step(y, BanCall(report, kind, until, days, ids)), Resume(y.next)).s ==
              Apply(y.s, Ban(report, kind, until, days, ids))
  {
  }

  // ---------- What overlapping calls keep ----------

  /** The status of a report is that of the last write to it. */
  function LastWrite(log: seq<Write>, report: nat): Option<Write> {
    if log == [] then None
    else if log[|log| - 1].report == report then Some(log[|log| - 1])
    else LastWrite(log[..|log| - 1], report)
  }

  ghost predicate StatusesLogged(reports: seq<Report>, log: seq<Write>) {
    && (forall w <- log :: w.report < |reports|)
    && forall r | 0 <= r < |reports| ::
         reports[r].status == match LastWrite(log, r) case None => PENDING case Some(w) => w.status
  }

  /** One action for each report, and one exactly for the reports that a ban wrote to. */
  ghost predicate ActionsLogged(actions: seq<Action>, log: seq<Write>) {
    && (forall i, j | 0 <= i < j < |actions| :: actions[i].report != actions[j].report)
    && (forall a <- actions :: Write(a.report, RESOLVED, true) in log)
    && (forall w <- log | w.byBan :: w.status.RESOLVED? && exists a <- actions :: a.report == w.report)
  }

  ghost predicate CallsOk(calls: Calls, next: nat, reports: seq<Report>) {
    forall c <- calls :: c < next && calls[c].report < |reports|
  }

  ghost predicate Sound(y: System) {
    && StatusesLogged(y.s.reports, y.log)
    && ActionsLogged(y.s.actions, y.log)
    && CallsOk(y.calls, y.next, y.s.reports)
  }

  lemma {:induction false} LastWriteIsIn(log: seq<Write>, report: nat)
    ensures match LastWrite(log, report)
            case None => forall w <- log :: w.report != report
            case Some(w) => w in log && w.report == report
  {
    if log != [] {
      LastWriteIsIn(log[..|log| - 1], report);
      assert log == log[..|log| - 1] + [log[|log| - 1]];
    }
  }

  lemma WriteLogged(reports: seq<Report>, log: seq<Write>, w: Write)
    requires StatusesLogged(reports, log) && w.report < |reports|
    ensures StatusesLogged(SetStatus(reports, w.report, w.status), log + [w])
  {
    assert (log + [w])[..|log|] == log;
  }

  lemma ActionLogged(actions: seq<Action>, log: seq<Write>, a: Action)
    requires ActionsLogged(actions, log) && forall x <- actions :: x.report != a.report
    ensures ActionsLogged(actions + [a], log + [Write(a.report, RESOLVED, true)])
  {
    var actions', log' := actions + [a], log + [Write(a.report, RESOLVED, true)];
    forall i | 0 <= i < |actions| ensures actions[i].report != a.report { assert actions[i] in actions; }
    assert actions'[|actions|] == a && a in actions';
    forall w <- log' | w.byBan ensures w.status.RESOLVED? && exists x <- actions' :: x.report == w.report {
      if w in log {
        var x :| x in actions && x.report == w.report;
        assert x in actions';
      }
    }
  }

  lemma UpdateLogged(actions: seq<Action>, log: seq<Write>, w: Write)
    requires ActionsLogged(actions, log) && !w.byBan
    ensures ActionsLogged(actions, log + [w])
  {
  }

  lemma FiledLogged(reports: seq<Report>, log: seq<Write>, user: UserId)
    requires StatusesLogged(reports, log)
    ensures StatusesLogged(reports + [Report(user, PENDING)], log)
  {
    LastWriteIsIn(log, |reports|);
  }

  lemma FinishSound(y: System, call: nat)
    requires Sound(y) && call in y.calls && y.calls[call].report < |y.s.reports|
    ensures Sound(Finish(y, call))
  {
    match y.calls[call]
    case Updating(report, status) =>
      WriteLogged(y.s.reports, y.log, Write(report, status, false));
      UpdateLogged(y.s.actions, y.log, Write(report, status, false));
    case Banning(report, kind, bannedUntil, _) =>
      if !HasAction(y.s, report) {
        WriteLogged(y.s.reports, y.log, Write(report, RESOLVED, true));
        ActionLogged(y.s.actions, y.log, Action(report, kind, bannedUntil, y.s.now));
      }
  }

  lemma StepSound(y: System, e: Event)
    requires Sound(y)
    ensures Sound(Step(y, e))
  {
    match e
    case Filed(user) => FiledLogged(y.s.reports, y.log, user);
    case Resume(call) => if call in y.calls { FinishSound(y, call); }
    case _ =>
  }

  lemma {:induction false} PlaySound(y: System, es: seq<Event>)
    requires Sound(y)
    ensures Sound(Play(y, es))
    decreases |es|
  {
    if es != [] {
      StepSound(y, es[0]);
      PlaySound(Step(y, es[0]), es[1..]);
    }
  }

  /** An update other than to RESOLVED was the last to write to the report. */
  predicate LastOverwritten(log: seq<Write>, report: nat) {
    LastWrite(log, report).Some? && !LastWrite(log, report).value.byBan
      && !LastWrite(log, report).value.status.RESOLVED?
  }

  /**
    After every interleaving a report has at most one action. One that has an action is not RESOLVED
    exactly if a status update to something else was written to it last, that is, after its ban.
   */
  lemma EveryInterleaving(messages: map<nat, Message>, media: set<nat>, now: int, es: seq<Event>, i: nat, j: nat)
    ensures var s, log := Play(Start(messages, media, now), es).s, Play(Start(messages, media, now), es).log;
            && (i < j < |s.actions| ==> s.actions[i].report != s.actions[j].report)
            && (i < |s.actions| ==> s.actions[i].report < |s.reports|)
            && (i < |s.actions| ==> Write(s.actions[i].report, RESOLVED, true) in log)
            && (i < |s.actions| ==>
                  (s.reports[s.actions[i].report].status != RESOLVED <==> LastOverwritten(log, s.actions[i].report)))
  {
    PlaySound(Start(messages, media, now), es);
    var y := Play(Start(messages, media, now), es);
    if i < |y.s.actions| {
      assert y.s.actions[i] in y.s.actions;
      LastWriteIsIn(y.log, y.s.actions[i].report);
    }
  }

  // ---------- When a processed report can still change ----------

  /** The call would write another status to the report. */
  predicate Overwrites(s: State, call: Call, report: nat)
    requires report < |s.reports|
  {
    call.report == report &&
    match call
    case Updating(_, status) => status != s.reports[report].status
    case Banning(_, _, _, _) => !s.reports[report].status.RESOLVED? && !HasAction(s, report)
  }

  /** The report has been processed and no suspended call would change that. */
  ghost predicate Settled(y: System, report: nat) {
    && report < |y.s.reports| && !y.s.reports[report].status.PENDING?
    && forall c <- y.calls :: !Overwrites(y.s, y.calls[c], report)
  }

  lemma SettledWhileFinishing(y: System, call: nat, report: nat)
    requires Settled(y, report) && call in y.calls && y.calls[call].report < |y.s.reports|
    ensures Settled(Finish(y, call), report) && Finish(y, call).s.reports[report] == y.s.reports[report]
  {
    var z := Finish(y, call);
    assert !Overwrites(y.s, y.calls[call], report);
    assert z.s.reports[report] == y.s.reports[report];
    assert z.s.actions == y.s.actions || z.s.actions == y.s.actions + [z.s.actions[|y.s.actions|]];
    forall c <- z.calls ensures !Overwrites(z.s, z.calls[c], report) {
      assert !Overwrites(y.s, y.calls[c], report);
      assert HasAction(y.s, report) ==> HasAction(z.s, report);
    }
  }

  lemma {:induction false} SettledForever(y: System, es: seq<Event>, report: nat)
    requires Settled(y, report)
    ensures report < |Play(y, es).s.reports| && Play(y, es).s.reports[report] == y.s.reports[report]
    decreases |es|
  {
    if es != [] {
      SettledForever(Step(y, es[0]), es[1..], report);
    }
  }

  /** The report changes in this future. */
  predicate Changes(y: System, es: seq<Event>, report: nat)
    requires report < |y.s.reports|
  {
    report < |Play(y, es).s.reports| && Play(y, es).s.reports[report] != y.s.reports[report]
  }

  /**
    A processed report changes in some future exactly if a call that found it pending is still to
    write, and would write another status.
   */
  lemma ProcessedChangesExactly(y: System, report: nat)
    requires report < |y.s.reports| && !y.s.reports[report].status.PENDING?
    ensures (exists es :: Changes(y, es, report)) <==> exists c <- y.calls :: Overwrites(y.s, y.calls[c], report)
  {
    if c :| c in y.calls && Overwrites(y.s, y.calls[c], report) {
      var es := [Resume(c)];
      assert es[1..] == [] && Play(Step(y, es[0]), es[1..]) == Finish(y, c);
      assert Changes(y, es, report);
    } else {
      forall es ensures !Changes(y, es, report) { SettledForever(y, es, report); }
    }
  }

  lemma {:induction false} PlaySnoc(y: System, es: seq<Event>, e: Event)
    ensures Play(y, es + [e]) == Step(Play(y, es), e)
    decreases |es|
  {
    if es == [] {
      assert Play(Step(y, e), []) == Step(y, e);
    } else {
      assert (es + [e])[1..] == es[1..] + [e];
      PlaySnoc(Step(y, es[0]), es[1..], e);
    }
  }

  /** A dismissal and a ban have both found the report pending. */
  lemma BothPending(y: System, user: UserId) returns (es: seq<Event>)
    requires y == Start(y.s.messages, y.s.media, y.s.now)
    ensures Play(y, es).s.reports == [Report(user, PENDING)] && Play(y, es).s.actions == []
    ensures Play(y, es).calls == map[0 := Updating(0, DISMISSED), 1 := Banning(0, PERMANENT_BAN, None, {})]
  {
    var e1, e2, e3 := Filed(user), StatusCall(0, DISMISSED), BanCall(0, PERMANENT_BAN, NotGiven, 0, {});
    PlaySnoc(y, [], e1);
    PlaySnoc(y, [e1], e2);
    PlaySnoc(y, [e1] + [e2], e3);
    es := [e1] + [e2] + [e3];
  }

  /** The ban commits first: the dismissal leaves a dismissed report with an action. */
  lemma DismissedWithAction(y: System, user: UserId) returns (es: seq<Event>)
    requires y == Start(y.s.messages, y.s.media, y.s.now)
    ensures var s := Play(y, es).s;
            s.reports == [Report(user, DISMISSED)] && |s.actions| == 1 && s.actions[0].report == 0
  {
    var pending := BothPending(y, user);
    PlaySnoc(y, pending, Resume(1));
    PlaySnoc(y, pending + [Resume(1)], Resume(0));
    es := pending + [Resume(1)] + [Resume(0)];
  }

  // ---------- The ban check ----------

  predicate BansUser(s: State, a: Action, user: UserId) {
    a.report < |s.reports| && s.reports[a.report].reportedUser == user && !a.kind.WARNING?
  }

  /**
    The most recent ban of a user, over the first `n` actions. Of two made at the same instant the later
    row counts.
   */
  function Latest(s: State, user: UserId, n: nat): Option<Action>
    requires n <= |s.actions|
  {
    if n == 0 then None
    else
      var earlier := Latest(s, user, n - 1);
      var a := s.actions[n - 1];
      if BansUser(s, a, user) && (earlier.None? || earlier.value.createdAt <= a.createdAt) then Some(a) else earlier
  }

  datatype BanStatus = Free | Permanent | Temporary(until: int)

  function StatusUnder(latest: Option<Action>, now: int): BanStatus {
    match latest
    case None => Free
    case Some(a) =>
      if a.kind.PERMANENT_BAN? then Permanent
      else if a.kind.TEMPORARY_BAN? && a.bannedUntil.Some? && now < a.bannedUntil.value
          then Temporary(a.bannedUntil.value)
      else Free
  }

  function CheckUserBanStatus(s: State, user: UserId): BanStatus {
    StatusUnder(Latest(s, user, |s.actions|), s.now)
  }

  /** The look-up is exact: a ban of the user at least as recent as every other. */
  lemma {:induction false} LatestIsLatest(s: State, user: UserId, n: nat)
    requires n <= |s.actions|
    ensures match Latest(s, user, n)
            case None => forall i | 0 <= i < n :: !BansUser(s, s.actions[i], user)
            case Some(a) => a in s.actions[..n] && BansUser(s, a, user)
                              && forall i | 0 <= i < n ::
                                  BansUser(s, s.actions[i], user) ==> s.actions[i].createdAt <= a.createdAt
  {
    if n > 0 {
      LatestIsLatest(s, user, n - 1);
      assert s.actions[..n] == s.actions[..n - 1] + [s.actions[n - 1]];
    }
  }

  lemma {:induction false} LatestUnchanged(s: State, s': State, user: UserId, n: nat)
    requires n <= |s.actions| && s.actions <= s'.actions
    requires forall i | 0 <= i < n :: BansUser(s, s.actions[i], user) == BansUser(s', s.actions[i], user)
    ensures Latest(s', user, n) == Latest(s, user, n)
  {
    if n > 0 {
      LatestUnchanged(s, s', user, n - 1);
      assert s'.actions[n - 1] == s.actions[n - 1];
    }
  }

  /** What the passing of time makes of a status. */
  function Elapsed(status: BanStatus, now: int): BanStatus {
    match status
    case Temporary(until) => if now < until then Temporary(until) else Free
    case _ => status
  }

  /** Actions are on reports there are, and not from the future. */
  ghost predicate Dated(s: State) { forall a <- s.actions :: a.report < |s.reports| && a.createdAt <= s.now }

  ghost predicate UsersKept(s: State, s': State) {
    |s.reports| <= |s'.reports| && forall r | 0 <= r < |s.reports| ::
      s'.reports[r].reportedUser == s.reports[r].reportedUser
  }

  lemma LatestKept(s: State, s': State, user: UserId)
    requires Dated(s) && UsersKept(s, s') && s.actions <= s'.actions
    ensures Latest(s', user, |s.actions|) == Latest(s, user, |s.actions|)
  {
    forall i | 0 <= i < |s.actions| ensures BansUser(s, s.actions[i], user) == BansUser(s', s.actions[i], user) {
      assert s.actions[i] in s.actions;
    }
    LatestUnchanged(s, s', user, |s.actions|);
  }

  lemma LatestAfterAction(s: State, s': State, a: Action, user: UserId)
    requires Dated(s) && UsersKept(s, s') && s'.actions == s.actions + [a] && a.createdAt == s.now
    ensures Latest(s', user, |s'.actions|) == if BansUser(s', a, user) then Some(a) else Latest(s, user, |s.actions|)
  {
    LatestKept(s, s', user);
    LatestIsLatest(s, user, |s.actions|);
    var earlier := Latest(s, user, |s.actions|);
    assert earlier.Some? ==> earlier.value in s.actions;
  }

  /** The ban an operation puts on the user, if it does. */
  function NewBan(s: State, op: Op, user: UserId): Option<Action> {
    if op.Ban? && BanOutcome(s, op.report, op.kind, op.until).Done?
        && !op.kind.WARNING? && s.reports[op.report].reportedUser == user
    then Some(Action(op.report, op.kind, BannedUntil(op.kind, op.until, op.days, s.now), s.now))
    else None
  }

  lemma LatestAfter(s: State, op: Op, user: UserId)
    requires Inv(s)
    ensures var s' := Apply(s, op);
            Latest(s', user, |s'.actions|) ==
              if NewBan(s, op, user).Some? then NewBan(s, op, user) else Latest(s, user, |s.actions|)
  {
    var s' := Apply(s, op);
    if op.Ban? && BanOutcome(s, op.report, op.kind, op.until).Done? {
      LatestAfterAction(s, s', Action(op.report, op.kind, BannedUntil(op.kind, op.until, op.days, s.now), s.now), user);
    } else {
      LatestKept(s, s', user);
    }
  }

  /**
    What a step does to the ban check of a user: a ban of that user decides it alone, time can only
    end a temporary ban, and nothing else (no warning, no dismissal, no report, no action on
    another user) has any effect.
   */
  lemma StepOnBanStatus(s: State, op: Op, user: UserId)
    requires Inv(s)
    ensures CheckUserBanStatus(Apply(s, op), user) ==
              if NewBan(s, op, user).Some? then StatusUnder(NewBan(s, op, user), s.now)
              else Elapsed(CheckUserBanStatus(s, user), Apply(s, op).now)
  {
    LatestAfter(s, op, user);
  }

  /** The ban that takes effect when a suspended call commits. */
  function CommittedBan(y: System, e: Event, user: UserId): Option<Action> {
    if e.Resume? && e.call in y.calls && y.calls[e.call].report < |y.s.reports| && y.calls[e.call].Banning?
    then
      var Banning(report, kind, bannedUntil, _) := y.calls[e.call];
      if kind.WARNING? || HasAction(y.s, report) || y.s.reports[report].reportedUser != user then None
      else Some(Action(report, kind, bannedUntil, y.s.now))
    else None
  }

  lemma FinishOnLatest(y: System, call: nat, user: UserId)
    requires Dated(y.s) && call in y.calls && y.calls[call].report < |y.s.reports|
    ensures var s' := Finish(y, call).s;
            && Dated(s') && s'.now == y.s.now
            && Latest(s', user, |s'.actions|) ==
               if CommittedBan(y, Resume(call), user).Some? then CommittedBan(y, Resume(call), user)
               else Latest(y.s, user, |y.s.actions|)
  {
    var s' := Finish(y, call).s;
    match y.calls[call]
    case Updating(_, _) => LatestKept(y.s, s', user);
    case Banning(report, kind, bannedUntil, _) =>
      if !HasAction(y.s, report) { LatestAfterAction(y.s, s', Action(report, kind, bannedUntil, y.s.now), user); }
  }

  /** With overlapping calls too only the commit of a ban of the user and the passing of time change his status. */
  lemma OverlappingStepOnBanStatus(y: System, e: Event, user: UserId)
    requires Dated(y.s)
    ensures Dated(Step(y, e).s)
    ensures CheckUserBanStatus(Step(y, e).s, user) ==
              if CommittedBan(y, e, user).Some? then StatusUnder(CommittedBan(y, e, user), y.s.now)
              else Elapsed(CheckUserBanStatus(y.s, user), Step(y, e).s.now)
  {
    var s' := Step(y, e).s;
    if e.Resume? && e.call in y.calls && y.calls[e.call].report < |y.s.reports| {
      FinishOnLatest(y, e.call, user);
    } else {
      LatestKept(y.s, s', user);
    }
  }

  /** The run holds no ban of this user. */
  predicate NotBannedIn(s: State, ops: seq<Op>, user: UserId)
    decreases |ops|
  {
    ops == [] ||
    (!(ops[0].Ban? && ops[0].report < |s.reports|
      && s.reports[ops[0].report].reportedUser == user && !ops[0].kind.WARNING?)
     && NotBannedIn(Apply(s, ops[0]), ops[1..], user))
  }

  /** The last ban a run puts on the user. */
  function LastBanIn(s: State, ops: seq<Op>, user: UserId): Option<Action>
    decreases |ops|
  {
    if ops == [] then None
    else
      var later := LastBanIn(Apply(s, ops[0]), ops[1..], user);
      if later.Some? then later else NewBan(s, ops[0], user)
  }

  /** Over every run the last ban it puts on the user decides alone; without one the old status runs out. */
  lemma {:induction false} LastBanDecides(s: State, ops: seq<Op>, user: UserId)
    requires Inv(s)
    ensures s.now <= Run(s, ops).now
    ensures CheckUserBanStatus(Run(s, ops), user) ==
              if LastBanIn(s, ops, user).Some? then StatusUnder(LastBanIn(s, ops, user), Run(s, ops).now)
              else Elapsed(CheckUserBanStatus(s, user), Run(s, ops).now)
    decreases |ops|
  {
    if ops != [] {
      ApplyKeepsInv(s, ops[0]);
      ClockGoesOn(s, ops[0]);
      StepOnBanStatus(s, ops[0], user);
      LastBanDecides(Apply(s, ops[0]), ops[1..], user);
    }
  }

  lemma ClockGoesOn(s: State, op: Op)
    ensures s.now <= Apply(s, op).now && (op.Ban? ==> Apply(s, op).now == s.now)
  {
  }

  lemma {:induction false} NotBannedNoBan(s: State, ops: seq<Op>, user: UserId)
    requires NotBannedIn(s, ops, user)
    ensures LastBanIn(s, ops, user).None?
    decreases |ops|
  {
    if ops != [] { NotBannedNoBan(Apply(s, ops[0]), ops[1..], user); }
  }

  /**
    The status a ban gives: a permanent one is permanent, a temporary one holds strictly before its end,
    if it has one.
   */
  lemma NewBanStatus(s: State, report: nat, kind: ActionType, until: Until, days: int, ids: set<nat>)
    requires Inv(s) && report < |s.reports| && s.reports[report].status == PENDING
    requires kind != WARNING && !(kind == TEMPORARY_BAN && until == Invalid)
    ensures var status :=
        CheckUserBanStatus(Apply(s, Ban(report, kind, until, days, ids)), s.reports[report].reportedUser);
            match kind
            case PERMANENT_BAN => status == Permanent
            case _ =>
              match until
              case ParsesTo(ms) => status == if s.now < ms then Temporary(ms) else Free
              case _ => status == if days > 0 then Temporary(s.now + days * 86_400_000) else Free
  {
    StepOnBanStatus(s, Ban(report, kind, until, days, ids), s.reports[report].reportedUser);
  }

  /**
    Without a new ban a user who is free stays free, and one who is banned stays banned in the same way
    until the time is up.
   */
  lemma BanOnlyRunsOut(s: State, ops: seq<Op>, user: UserId)
    requires Inv(s) && NotBannedIn(s, ops, user)
    ensures s.now <= Run(s, ops).now
    ensures CheckUserBanStatus(Run(s, ops), user) == Elapsed(CheckUserBanStatus(s, user), Run(s, ops).now)
  {
    NotBannedNoBan(s, ops, user);
    LastBanDecides(s, ops, user);
  }

  /** So a permanent ban lasts exactly as long as no temporary one follows it. */
  lemma PermanentExactly(s: State, ops: seq<Op>, user: UserId)
    requires Inv(s) && CheckUserBanStatus(s, user).Permanent?
    ensures CheckUserBanStatus(Run(s, ops), user).Permanent? <==>
              LastBanIn(s, ops, user).None? || LastBanIn(s, ops, user).value.kind.PERMANENT_BAN?
  {
    LastBanDecides(s, ops, user);
  }

  lemma {:induction false} RunSnoc(s: State, ops: seq<Op>, op: Op)
    ensures Run(s, ops + [op]) == Apply(Run(s, ops), op)
    decreases |ops|
  {
    if ops == [] {
      assert Run(Apply(s, op), []) == Apply(s, op);
    } else {
      assert (ops + [op])[1..] == ops[1..] + [op];
      RunSnoc(Apply(s, ops[0]), ops[1..], op);
    }
  }

  /** Two reports: a permanent ban, then a temporary one without a duration, which frees the user at once. */
  lemma TemporaryBanFrees(s: State, user: UserId) returns (ops: seq<Op>, last: Op)
    requires s == State([], [], s.messages, s.media, s.now)
    ensures last.Ban? && last.kind == TEMPORARY_BAN && NewBan(Run(s, ops), last, user).Some?
    ensures CheckUserBanStatus(Run(s, ops), user) == Permanent
    ensures CheckUserBanStatus(Run(s, ops + [last]), user) == Free
  {
    var ban := Ban(0, PERMANENT_BAN, NotGiven, 0, {});
    last := Ban(1, TEMPORARY_BAN, NotGiven, 0, {});
    RunSnoc(s, [], FileReport(user));
    RunSnoc(s, [FileReport(user)], FileReport(user));
    RunSnoc(s, [FileReport(user)] + [FileReport(user)], ban);
    ops := [FileReport(user)] + [FileReport(user)] + [ban];
    RunSnoc(s, ops, last);
    var reported := Run(s, [FileReport(user)] + [FileReport(user)]);
    assert reported.reports == [Report(user, PENDING), Report(user, PENDING)];
    RunKeepsReports(s, [FileReport(user)] + [FileReport(user)], 0);
    RunKeepsReports(s, ops, 0);
    StepOnBanStatus(reported, ban, user);
    StepOnBanStatus(Run(s, ops), last, user);
  }

  // ---------- The remaining time, as told to the user ----------

  datatype Part = Days(n: nat) | Hours(n: nat) | Minutes(n: nat)

  function PartMs(p: Part): nat {
    match p
    case Days(n) => n * 86_400_000
    case Hours(n) => n * 3_600_000
    case Minutes(n) => n * 60_000
  }

  function PartsMs(parts: seq<Part>): nat {
    if parts == [] then 0 else PartMs(parts[0]) + PartsMs(parts[1..])
  }

  predicate Readable(parts: seq<Part>) {
    && (forall p <- parts ::
        (p.Hours? ==> p.n < 24) && (p.Minutes? ==> p.n < 60) && (p.n == 0 ==> parts == [Minutes(0)]))
    && forall i, j | 0 <= i < j < |parts| :: PartRank(parts[i]) < PartRank(parts[j])
  }

  function PartRank(p: Part): nat { match p case Days(_) => 0 case Hours(_) => 1 case Minutes(_) => 2 }

  lemma SplitRemainder(ms: nat)
    ensures var d, h, m := ms / DAY_MS, ms % DAY_MS / HOUR_MS, ms % HOUR_MS / MINUTE_MS;
            && 0 <= d && 0 <= h < 24 && 0 <= m < 60
            && d * DAY_MS + h * HOUR_MS + m * MINUTE_MS <= ms < d * DAY_MS + h * HOUR_MS + m * MINUTE_MS + MINUTE_MS
  {
    var rest := ms % DAY_MS;
    assert ms % HOUR_MS == rest % HOUR_MS;
  }

  /** The pushes that build the message. */
  method PushParts(days: nat, hours: nat, minutes: nat) returns (parts: seq<Part>)
    requires hours < 24 && minutes < 60
    ensures PartsMs(parts) == PartMs(Days(days)) + PartMs(Hours(hours)) + PartMs(Minutes(minutes))
    ensures parts != [] && Readable(parts)
  {
    parts := [];
    if days > 0 {
      PartsSnoc(parts, Days(days));
      parts := parts + [Days(days)];
    }
    assert PartsMs(parts) == PartMs(Days(days));
    if hours > 0 {
      PartsSnoc(parts, Hours(hours));
      parts := parts + [Hours(hours)];
    }
    assert PartsMs(parts) == PartMs(Days(days)) + PartMs(Hours(hours));
    if minutes > 0 || |parts| == 0 {
      PartsSnoc(parts, Minutes(minutes));
      parts := parts + [Minutes(minutes)];
    }
  }

  /** The parts of the message fall short of the true remainder by less than a minute. */
  method RemainingParts(bannedUntil: int, now: int) returns (parts: seq<Part>)
    requires now < bannedUntil
    ensures PartsMs(parts) <= bannedUntil - now < PartsMs(parts) + 60_000
    ensures parts != [] && Readable(parts)
  {
    var remainingMs := bannedUntil - now;
    SplitRemainder(remainingMs);
    parts := PushParts(remainingMs / DAY_MS, remainingMs % DAY_MS / HOUR_MS, remainingMs % HOUR_MS / MINUTE_MS);
  }

  lemma {:induction false} PartsSnoc(parts: seq<Part>, p: Part)
    ensures PartsMs(parts + [p]) == PartsMs(parts) + PartMs(p)
  {
    if parts == [] {
      assert [p][1..] == [];
    } else {
      assert (parts + [p])[1..] == parts[1..] + [p];
      PartsSnoc(parts[1..], p);
    }
  }

  lemma RedactNone(messages: map<nat, Message>, media: set<nat>)
    ensures RedactedIn(messages, media, {}) == messages && FilesOf(messages, media, {}) == {}
  {
  }

  // ---------- Imperative form ----------

  class AdminService {
    var reports: seq<Report>
    var actions: seq<Action>
    var messages: map<nat, Message>
    var media: set<nat>

    ghost function Model(now: int): State
      reads this
    {
      State(reports, actions, messages, media, now)
    }

    /** updateViolationReportStatus, up to the read of the report. */
    method ReadPending(report: nat) returns (r: Outcome)
      ensures r == if report >= |reports| then ReportNotFound
                   else if reports[report].status.PENDING? then Done else AlreadyProcessed
    {
      if report >= |reports| { return ReportNotFound; }
      if reports[report].status != PENDING { return AlreadyProcessed; }
      return Done;
    }

    /** ... and its unconditional write. */
    method WriteStatus(report: nat, status: ReportStatus)
      requires report < |reports|
      modifies this`reports
      ensures reports == SetStatus(old(reports), report, status)
    {
      reports := reports[report := reports[report].(status := status)];
    }

    /** Both, with nothing in between. */
    method UpdateViolationReportStatus(report: nat, status: ReportStatus, ghost now: int) returns (r: Outcome)
      modifies this
      ensures Model(now) == Apply(old(Model(now)), UpdateStatus(report, status))
      ensures r == if report >= |old(reports)| then ReportNotFound
                   else if old(reports)[report].status.PENDING? then Done else AlreadyProcessed
    {
      r := ReadPending(report);
      if r == Done { WriteStatus(report, status); }
    }

    method BanReportedUser(report: nat, kind: ActionType, until: Until, days: int, messageIds: set<nat>, now: int)
      returns (r: Outcome)
      modifies this
      ensures Model(now) == Apply(old(Model(now)), Ban(report, kind, until, days, messageIds))
      ensures r == BanOutcome(old(Model(now)), report, kind, until)
    {
      if report >= |reports| { return ReportNotFound; }
      if reports[report].status != PENDING { return AlreadyProcessed; }
      var bannedUntil: Option<int> := None;
      if kind == TEMPORARY_BAN {
        if until.Invalid? { return InvalidBannedUntil; }
        if until.ParsesTo? {
          bannedUntil := Some(until.ms);
        } else if days != 0 {
          bannedUntil := Some(now + days * DAY_MS);
        }
      }
      actions := actions + [Action(report, kind, bannedUntil, now)];
      reports := reports[report := reports[report].(status := RESOLVED)];
      RedactMessages(messageIds);
      r := Done;
    }

    method RedactMessage(m: Message) returns (updated: Message, file: Option<nat>)
      ensures updated == Redacted(m, media)
      ensures forall f: nat :: DropsMedia(m, media, f) <==> file == Some(f)
    {
      updated, file := m.(isDeleted := true, isViolated := true, content := ""), None;
      if m.kind == STICKER {
        updated := updated.(stickerId := None);
      } else if m.kind == MEDIA && m.mediaId.Some? && m.mediaId.value in media {
        updated, file := updated.(mediaId := None), m.mediaId;
      }
    }

    method RedactNext(fetched: map<nat, Message>, ghost done: set<nat>, id: nat)
      returns (updated: Message, file: Option<nat>)
      requires id in fetched && id !in done
      ensures RedactedIn(fetched, media, done)[id := updated] == RedactedIn(fetched, media, done + {id})
      ensures FilesOf(fetched, media, done + {id}) ==
          FilesOf(fetched, media, done) + if file.Some? then {file.value} else {}
    {
      updated, file := RedactMessage(fetched[id]);
    }

    /** The loop over the fetched messages. */
    method RedactEach(listed: set<nat>) returns (mediaIdsToDelete: set<nat>)
      requires listed <= messages.Keys
      modifies this`messages
      ensures messages == RedactedIn(old(messages), media, listed)
      ensures mediaIdsToDelete == FilesOf(old(messages), media, listed)
    {
      var fetched := messages;
      var todo := listed;
      mediaIdsToDelete := {};
      RedactNone(fetched, media);
      assert listed - todo == {};
      while todo != {}
        invariant todo <= listed
        invariant messages == RedactedIn(fetched, media, listed - todo)
        invariant mediaIdsToDelete == FilesOf(fetched, media, listed - todo)
        decreases |todo|
      {
        var id :| id in todo;
        var updated, file := RedactNext(fetched, listed - todo, id);
        assert listed - todo + {id} == listed - (todo - {id});
        if file.Some? { mediaIdsToDelete := mediaIdsToDelete + {file.value}; }
        messages := messages[id := updated];
        todo := todo - {id};
      }
      assert listed - {} == listed;
    }

    method RedactMessages(messageIds: set<nat>)
      modifies this`messages, this`media
      ensures messages == Redact(old(Model(0)), messageIds).messages
      ensures media == Redact(old(Model(0)), messageIds).media
    {
      var listed := set id | id in messageIds && id in messages;
      var mediaIdsToDelete := RedactEach(listed);
      media := media - mediaIdsToDelete;
    }
  }
}
